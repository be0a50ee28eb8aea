/** Capability grants with their audit events: creation, revocation, the cascade when a matter is
    archived, and the capability check at run time. */
module Grants {
  import opened Options

  datatype Scope = Workspace | MatterScope(matterId: nat)

  /** The six columns a grant is unique on. */
  datatype GrantKey = GrantKey(user: nat, plugin: string, skill: string, capability: string, scope: Scope)

  datatype Grant = Grant(id: nat, key: GrantKey)

  datatype Event =
    | GrantCreated(matterId: nat, grantId: nat)
    | GrantRevoked(matterId: nat, grantId: nat)
    | GrantsCascaded(matterId: nat, count: nat)
    | CapabilityDenied(key: GrantKey)

  /** The grant table, the audit events about it, and the next unused row id. */
  datatype Ledger = Ledger(grants: seq<Grant>, events: seq<Event>, nextId: nat)

  /** A capability's declaration in a module manifest. */
  datatype Declaration = Declaration(scope: string, readList: seq<string>, writeList: seq<string>)

  datatype Error = NotDeclared | ScopeUnsupported

  datatype Creation = Creation(created: seq<Grant>, existing: seq<Grant>)

  predicate HasKey(grants: seq<Grant>, key: GrantKey) {
    grants != [] && (grants[|grants| - 1].key == key || HasKey(grants[..|grants| - 1], key))
  }

  lemma {:induction false} HasKeyIff(grants: seq<Grant>, key: GrantKey)
    ensures HasKey(grants, key) <==> exists g :: g in grants && g.key == key
  {
    if grants != [] {
      var front, last := grants[..|grants| - 1], grants[|grants| - 1];
      assert grants == front + [last];
      HasKeyIff(front, key);
    }
  }

  function RowWith(grants: seq<Grant>, key: GrantKey): (g: Grant)
    requires HasKey(grants, key)
    ensures g in grants && g.key == key
  {
    if grants[|grants| - 1].key == key then grants[|grants| - 1] else RowWith(grants[..|grants| - 1], key)
  }

  // ---- Creating ----

  function KeyFor(user: nat, plugin: string, skill: string, matterId: nat, capability: string): GrantKey {
    GrantKey(user, plugin, skill, capability, MatterScope(matterId))
  }

  function KeysFor(user: nat, plugin: string, skill: string, matterId: nat, d: Declaration): (r: seq<GrantKey>) {
    var strings := d.readList + d.writeList;
    seq(|strings|, i requires 0 <= i < |strings| => KeyFor(user, plugin, skill, matterId, strings[i]))
  }

  /** The rows inserted for a list of keys. A pending row is flushed before the next lookup, so a
      key listed twice is inserted once. */
  function NewRows(grants: seq<Grant>, keys: seq<GrantKey>, nextId: nat): (r: seq<Grant>)
    ensures |r| <= |keys|
  {
    if keys == [] then []
    else
      var front, last := NewRows(grants, keys[..|keys| - 1], nextId), keys[|keys| - 1];
      if HasKey(grants + front, last) then front else front + [Grant(nextId + |front|, last)]
  }

  /** The rows found instead: one for every key that was there when its turn came. */
  function FoundRows(grants: seq<Grant>, keys: seq<GrantKey>, nextId: nat): (r: seq<Grant>)
    ensures |r| + |NewRows(grants, keys, nextId)| == |keys|
  {
    if keys == [] then []
    else
      var front, last := keys[..|keys| - 1], keys[|keys| - 1];
      var rows := grants + NewRows(grants, front, nextId);
      FoundRows(grants, front, nextId) + (if HasKey(rows, last) then [RowWith(rows, last)] else [])
  }

  function CreatedEvents(rows: seq<Grant>, matterId: nat): seq<Event> {
    seq(|rows|, i requires 0 <= i < |rows| => GrantCreated(matterId, rows[i].id))
  }

  function Create(l: Ledger, keys: seq<GrantKey>, matterId: nat): Ledger {
    var rows := NewRows(l.grants, keys, l.nextId);
    Ledger(l.grants + rows, l.events + CreatedEvents(rows, matterId), l.nextId + |rows|)
  }

  // ---- Revoking ----

  /** The triple check: the row asked for, the caller's own, granted at this very matter. */
  ghost predicate IsOwn(g: Grant, user: nat, matterId: nat, id: nat) {
    g.id == id && g.key.user == user && g.key.scope.MatterScope? && g.key.scope.matterId == matterId
  }

  predicate Revocable(g: Grant, user: nat, matterId: nat, id: nat) {
    g.id == id && g.key.user == user && g.key.scope == MatterScope(matterId)
  }

  function RemoveId(grants: seq<Grant>, id: nat): seq<Grant> {
    if grants == [] then []
    else
      var front, last := RemoveId(grants[..|grants| - 1], id), grants[|grants| - 1];
      if last.id == id then front else front + [last]
  }

  predicate CanRevoke(l: Ledger, user: nat, matterId: nat, id: nat) {
    exists g :: g in l.grants && Revocable(g, user, matterId, id)
  }

  /** A revocation by the wrong user, at the wrong matter or of no row changes nothing. */
  function Revoke(l: Ledger, user: nat, matterId: nat, id: nat): Ledger {
    if CanRevoke(l, user, matterId, id) then
      l.(grants := RemoveId(l.grants, id), events := l.events + [GrantRevoked(matterId, id)])
    else l
  }

  // ---- The cascade ----

  function AtScope(grants: seq<Grant>, sc: Scope): (r: seq<Grant>)
    ensures forall g :: g in r <==> g in grants && g.key.scope == sc
  {
    if grants == [] then []
    else
      var front, last := AtScope(grants[..|grants| - 1], sc), grants[|grants| - 1];
      if last.key.scope == sc then front + [last] else front
  }

  function NotAtScope(grants: seq<Grant>, sc: Scope): (r: seq<Grant>)
    ensures forall g :: g in r <==> g in grants && g.key.scope != sc
  {
    if grants == [] then []
    else
      var front, last := NotAtScope(grants[..|grants| - 1], sc), grants[|grants| - 1];
      if last.key.scope == sc then front else front + [last]
  }

  lemma {:induction false} ScopeSplits(grants: seq<Grant>, sc: Scope)
    ensures |AtScope(grants, sc)| + |NotAtScope(grants, sc)| == |grants|
  {
    if grants != [] {
      ScopeSplits(grants[..|grants| - 1], sc);
    }
  }

  function Cascade(l: Ledger, matterId: nat): Ledger {
    var count := |AtScope(l.grants, MatterScope(matterId))|;
    l.(grants := NotAtScope(l.grants, MatterScope(matterId)),
       events := if count > 0 then l.events + [GrantsCascaded(matterId, count)] else l.events)
  }

  // ---- Checking ----

  /** The exact key the run-time check looks up: no matter means the workspace scope and only that. */
  function CheckedKey(user: nat, plugin: string, skill: string, capability: string, matter: Option<nat>): GrantKey {
    GrantKey(user, plugin, skill, capability, if matter.None? then Workspace else MatterScope(matter.value))
  }

  /** The grant a check looks for: the caller's, of this capability, at exactly the scope asked about. */
  ghost predicate Allows(g: Grant, user: nat, plugin: string, skill: string, capability: string, matter: Option<nat>) {
    && g.key.user == user && g.key.plugin == plugin && g.key.skill == skill && g.key.capability == capability
    && (matter.None? ==> g.key.scope.Workspace?)
    && (matter.Some? ==> g.key.scope.MatterScope? && g.key.scope.matterId == matter.value)
  }

  // ---- Conservation ----

  function Live(grants: seq<Grant>, matterId: nat): nat {
    |AtScope(grants, MatterScope(matterId))|
  }

  /** What one event adds to the number of live grants on a matter. */
  function Effect(e: Event, matterId: nat): int {
    match e
    case GrantCreated(m, _) => if m == matterId then 1 else 0
    case GrantRevoked(m, _) => if m == matterId then -1 else 0
    case GrantsCascaded(m, n) => if m == matterId then -(n as int) else 0
    case CapabilityDenied(_) => 0
  }

  /** Created events less explicit revocations less the rows cascades counted. */
  function Balance(events: seq<Event>, matterId: nat): int {
    if events == [] then 0 else Balance(events[..|events| - 1], matterId) + Effect(events[|events| - 1], matterId)
  }

  ghost predicate Distinct(grants: seq<Grant>) {
    forall i, j :: 0 <= i < j < |grants| ==> grants[i].key != grants[j].key && grants[i].id != grants[j].id
  }

  ghost predicate Unique(grants: seq<Grant>, nextId: nat) {
    Distinct(grants) && forall g :: g in grants ==> g.id < nextId
  }

  ghost predicate UniqueRows(l: Ledger) {
    Unique(l.grants, l.nextId)
  }

  lemma DistinctAppend(grants: seq<Grant>, g: Grant)
    requires Distinct(grants)
    requires forall x :: x in grants ==> x.key != g.key && x.id != g.id
    ensures Distinct(grants + [g])
  {
  }

  ghost predicate Balanced(l: Ledger) {
    forall m :: Live(l.grants, m) == Balance(l.events, m)
  }

  ghost predicate Sound(l: Ledger) {
    UniqueRows(l) && Balanced(l)
  }

  lemma {:induction false} AtScopeConcat(a: seq<Grant>, b: seq<Grant>, sc: Scope)
    ensures AtScope(a + b, sc) == AtScope(a, sc) + AtScope(b, sc)
  {
    if b == [] {
      assert a + b == a;
    } else {
      assert (a + b)[..|a + b| - 1] == a + b[..|b| - 1];
      AtScopeConcat(a, b[..|b| - 1], sc);
    }
  }

  lemma {:induction false} BalanceConcat(a: seq<Event>, b: seq<Event>, m: nat)
    ensures Balance(a + b, m) == Balance(a, m) + Balance(b, m)
  {
    if b == [] {
      assert a + b == a;
    } else {
      assert (a + b)[..|a + b| - 1] == a + b[..|b| - 1];
      BalanceConcat(a, b[..|b| - 1], m);
    }
  }

  lemma BalanceOne(e: Event, m: nat)
    ensures Balance([e], m) == Effect(e, m)
  {
    assert [e][..0] == [];
  }

  // ---- Creation keeps the ledger sound ----

  lemma UniqueAppend(grants: seq<Grant>, nextId: nat, key: GrantKey)
    requires Unique(grants, nextId)
    requires !HasKey(grants, key)
    ensures Unique(grants + [Grant(nextId, key)], nextId + 1)
  {
    HasKeyIff(grants, key);
    DistinctAppend(grants, Grant(nextId, key));
  }

  lemma {:induction false} NewRowsUnique(grants: seq<Grant>, keys: seq<GrantKey>, nextId: nat)
    requires Unique(grants, nextId)
    ensures Unique(grants + NewRows(grants, keys, nextId), nextId + |NewRows(grants, keys, nextId)|)
    decreases |keys|
  {
    if keys == [] {
      assert grants + [] == grants;
    } else {
      var front, last := keys[..|keys| - 1], keys[|keys| - 1];
      NewRowsUnique(grants, front, nextId);
      var before := NewRows(grants, front, nextId);
      if !HasKey(grants + before, last) {
        UniqueAppend(grants + before, nextId + |before|, last);
        assert grants + (before + [Grant(nextId + |before|, last)]) == grants + before + [Grant(nextId + |before|, last)];
      }
    }
  }

  lemma {:induction false} NewRowsKeys(grants: seq<Grant>, keys: seq<GrantKey>, nextId: nat)
    ensures forall g :: g in NewRows(grants, keys, nextId) ==> g.key in keys
    decreases |keys|
  {
    if keys != [] {
      var front := keys[..|keys| - 1];
      NewRowsKeys(grants, front, nextId);
      assert keys == front + [keys[|keys| - 1]];
    }
  }

  lemma NewRowsTurn(grants: seq<Grant>, keys: seq<GrantKey>, i: nat, nextId: nat)
    requires i < |keys|
    ensures var before := NewRows(grants, keys[..i], nextId);
            NewRows(grants, keys[..i + 1], nextId) ==
            before + (if HasKey(grants + before, keys[i]) then [] else [Grant(nextId + |before|, keys[i])])
  {
    assert keys[..i + 1][..i] == keys[..i];
    assert NewRows(grants, keys[..i], nextId) + [] == NewRows(grants, keys[..i], nextId);
  }

  lemma FoundRowsTurn(grants: seq<Grant>, keys: seq<GrantKey>, i: nat, nextId: nat)
    requires i < |keys|
    ensures var rows := grants + NewRows(grants, keys[..i], nextId);
            FoundRows(grants, keys[..i + 1], nextId) ==
            FoundRows(grants, keys[..i], nextId) + (if HasKey(rows, keys[i]) then [RowWith(rows, keys[i])] else [])
  {
    assert keys[..i + 1][..i] == keys[..i];
  }

  /** A row found is a row of the table afterwards, for one of the keys asked for. */
  lemma {:induction false} FoundRowsInTable(grants: seq<Grant>, keys: seq<GrantKey>, n: nat, nextId: nat)
    requires n <= |keys|
    ensures forall g :: g in FoundRows(grants, keys[..n], nextId) ==>
                        g in grants + NewRows(grants, keys[..n], nextId) && g.key in keys
  {
    if n > 0 {
      FoundRowsInTable(grants, keys, n - 1, nextId);
      FoundRowsTurn(grants, keys, n - 1, nextId);
      NewRowsTurn(grants, keys, n - 1, nextId);
    }
  }

  lemma HasKeyGrows(a: seq<Grant>, b: seq<Grant>, key: GrantKey)
    requires HasKey(a, key)
    requires forall g :: g in a ==> g in b
    ensures HasKey(b, key)
  {
    HasKeyIff(a, key);
    HasKeyIff(b, key);
  }

  /** A key found before `extra` was inserted is found after. */
  lemma KeyStays(grants: seq<Grant>, before: seq<Grant>, extra: seq<Grant>, key: GrantKey)
    requires HasKey(grants + before, key)
    ensures HasKey(grants + (before + extra), key)
  {
    HasKeyGrows(grants + before, grants + (before + extra), key);
  }

  lemma InsertedKeyFound(grants: seq<Grant>, before: seq<Grant>, row: Grant)
    ensures HasKey(grants + (before + [row]), row.key)
  {
    assert row in grants + (before + [row]);
    HasKeyIff(grants + (before + [row]), row.key);
  }

  /** Whichever way the lookup of the last key goes, afterwards it is there. */
  lemma LastKeyPresent(grants: seq<Grant>, before: seq<Grant>, key: GrantKey, id: nat)
    ensures HasKey(grants + (before + (if HasKey(grants + before, key) then [] else [Grant(id, key)])), key)
  {
    if HasKey(grants + before, key) {
      assert before + [] == before;
    } else {
      InsertedKeyFound(grants, before, Grant(id, key));
    }
  }

  /** One turn keeps the keys found before it and makes its own key found. */
  lemma TurnKeepsKeys(grants: seq<Grant>, keys: seq<GrantKey>, i: nat, nextId: nat, key: GrantKey)
    requires i < |keys|
    requires key == keys[i] || HasKey(grants + NewRows(grants, keys[..i], nextId), key)
    ensures HasKey(grants + NewRows(grants, keys[..i + 1], nextId), key)
  {
    var before := NewRows(grants, keys[..i], nextId);
    NewRowsTurn(grants, keys, i, nextId);
    if key == keys[i] {
      LastKeyPresent(grants, before, key, nextId + |before|);
    } else {
      KeyStays(grants, before, NewRows(grants, keys[..i + 1], nextId)[|before|..], key);
    }
  }

  lemma {:induction false} AllKeysPresent(grants: seq<Grant>, keys: seq<GrantKey>, n: nat, nextId: nat, key: GrantKey)
    requires n <= |keys| && key in keys[..n]
    ensures HasKey(grants + NewRows(grants, keys[..n], nextId), key)
  {
    assert keys[..n] == keys[..n - 1] + [keys[n - 1]];
    if key != keys[n - 1] {
      AllKeysPresent(grants, keys, n - 1, nextId, key);
    }
    TurnKeepsKeys(grants, keys, n - 1, nextId, key);
  }

  lemma {:induction false} NothingNew(grants: seq<Grant>, keys: seq<GrantKey>, nextId: nat)
    requires forall k :: k in keys ==> HasKey(grants, k)
    ensures NewRows(grants, keys, nextId) == []
    decreases |keys|
  {
    if keys != [] {
      NothingNew(grants, keys[..|keys| - 1], nextId);
      assert grants + [] == grants;
    }
  }

  /** Granting again adds no row and no event. */
  lemma CreateIsIdempotent(l: Ledger, keys: seq<GrantKey>, matterId: nat)
    ensures Create(Create(l, keys, matterId), keys, matterId) == Create(l, keys, matterId)
  {
    var once := Create(l, keys, matterId);
    assert keys[..|keys|] == keys;
    forall k | k in keys
      ensures HasKey(once.grants, k)
    {
      AllKeysPresent(l.grants, keys, |keys|, l.nextId, k);
    }
    NothingNew(once.grants, keys, once.nextId);
    assert CreatedEvents([], matterId) == [];
    assert once.grants + [] == once.grants && once.events + [] == once.events;
  }

  lemma {:induction false} CreatedEventsBalance(rows: seq<Grant>, matterId: nat, m: nat)
    ensures Balance(CreatedEvents(rows, matterId), m) == if m == matterId then |rows| else 0
  {
    var events := CreatedEvents(rows, matterId);
    if rows != [] {
      assert events[..|events| - 1] == CreatedEvents(rows[..|rows| - 1], matterId);
      CreatedEventsBalance(rows[..|rows| - 1], matterId, m);
    }
  }

  lemma {:induction false} AtScopeUniform(rows: seq<Grant>, at: Scope, sc: Scope)
    requires forall g :: g in rows ==> g.key.scope == at
    ensures AtScope(rows, sc) == if sc == at then rows else []
  {
    if rows != [] {
      var front, last := rows[..|rows| - 1], rows[|rows| - 1];
      assert rows == front + [last];
      AtScopeUniform(front, at, sc);
    }
  }

  lemma CreateKeepsSound(l: Ledger, keys: seq<GrantKey>, matterId: nat)
    requires Sound(l)
    requires forall k :: k in keys ==> k.scope == MatterScope(matterId)
    ensures Sound(Create(l, keys, matterId))
  {
    var rows := NewRows(l.grants, keys, l.nextId);
    NewRowsUnique(l.grants, keys, l.nextId);
    NewRowsKeys(l.grants, keys, l.nextId);
    forall m
      ensures Live(l.grants + rows, m) == Balance(l.events + CreatedEvents(rows, matterId), m)
    {
      assert Live(l.grants, m) == Balance(l.events, m);
      AtScopeConcat(l.grants, rows, MatterScope(m));
      AtScopeUniform(rows, MatterScope(matterId), MatterScope(m));
      BalanceConcat(l.events, CreatedEvents(rows, matterId), m);
      CreatedEventsBalance(rows, matterId, m);
    }
  }

  // ---- Revocation keeps the ledger sound ----

  lemma {:induction false} RemoveIdMembers(grants: seq<Grant>, id: nat)
    ensures forall g :: g in RemoveId(grants, id) <==> g in grants && g.id != id
  {
    if grants != [] {
      var front, last := grants[..|grants| - 1], grants[|grants| - 1];
      assert grants == front + [last];
      RemoveIdMembers(front, id);
    }
  }

  lemma {:induction false} RemoveIdFacts(grants: seq<Grant>, id: nat)
    requires Distinct(grants)
    ensures var r := RemoveId(grants, id);
            && (forall g :: g in r <==> g in grants && g.id != id)
            && Distinct(r)
  {
    if grants != [] {
      var front, last := grants[..|grants| - 1], grants[|grants| - 1];
      assert grants == front + [last];
      RemoveIdFacts(front, id);
      if last.id != id {
        DistinctAppend(RemoveId(front, id), last);
      }
    }
  }

  lemma {:induction false} RemoveIdLive(grants: seq<Grant>, g: Grant, m: nat)
    requires Distinct(grants)
    requires g in grants
    ensures Live(RemoveId(grants, g.id), m) == Live(grants, m) - (if g.key.scope == MatterScope(m) then 1 else 0)
  {
    var front, last := grants[..|grants| - 1], grants[|grants| - 1];
    assert grants == front + [last];
    if last.id == g.id {
      assert last == g;
      RemoveMissing(front, g.id);
    } else {
      RemoveIdLive(front, g, m);
      AtScopeConcat(RemoveId(front, g.id), [last], MatterScope(m));
      AtScopeConcat(front, [last], MatterScope(m));
    }
  }

  lemma {:induction false} RemoveMissing(grants: seq<Grant>, id: nat)
    requires forall g :: g in grants ==> g.id != id
    ensures RemoveId(grants, id) == grants
  {
    if grants != [] {
      var front, last := grants[..|grants| - 1], grants[|grants| - 1];
      assert grants == front + [last];
      RemoveMissing(front, id);
    }
  }

  lemma RevokeKeepsSound(l: Ledger, user: nat, matterId: nat, id: nat)
    requires Sound(l)
    ensures Sound(Revoke(l, user, matterId, id))
  {
    if CanRevoke(l, user, matterId, id) {
      var g :| g in l.grants && Revocable(g, user, matterId, id);
      RemoveIdFacts(l.grants, id);
      var e := GrantRevoked(matterId, id);
      forall m
        ensures Live(RemoveId(l.grants, id), m) == Balance(l.events + [e], m)
      {
        assert Live(l.grants, m) == Balance(l.events, m);
        RemoveIdLive(l.grants, g, m);
        BalanceConcat(l.events, [e], m);
        BalanceOne(e, m);
      }
    }
  }

  /** Only the grant's own user, at its own matter, can remove it; everything else stays. */
  lemma RevokeRemovesOnlyThat(l: Ledger, user: nat, matterId: nat, id: nat, g: Grant)
    requires UniqueRows(l)
    ensures g in Revoke(l, user, matterId, id).grants <==> g in l.grants && !Revocable(g, user, matterId, id)
  {
    if CanRevoke(l, user, matterId, id) {
      var h :| h in l.grants && Revocable(h, user, matterId, id);
      RemoveIdFacts(l.grants, id);
      if g in l.grants && g.id == id {
        var i :| 0 <= i < |l.grants| && l.grants[i] == g;
        var j :| 0 <= j < |l.grants| && l.grants[j] == h;
        assert i == j;
      }
    }
  }

  // ---- The cascade keeps the ledger sound ----

  lemma {:induction false} NotAtScopeDistinct(grants: seq<Grant>, sc: Scope)
    requires Distinct(grants)
    ensures var r := NotAtScope(grants, sc);
            Distinct(r)
  {
    if grants != [] {
      var front, last := grants[..|grants| - 1], grants[|grants| - 1];
      assert grants == front + [last];
      NotAtScopeDistinct(front, sc);
      if last.key.scope != sc {
        DistinctAppend(NotAtScope(front, sc), last);
      }
    }
  }

  lemma {:induction false} NotAtScopeLive(grants: seq<Grant>, matterId: nat, m: nat)
    ensures Live(NotAtScope(grants, MatterScope(matterId)), m) == if m == matterId then 0 else Live(grants, m)
  {
    if grants != [] {
      var front, last := grants[..|grants| - 1], grants[|grants| - 1];
      NotAtScopeLive(front, matterId, m);
      AtScopeConcat(NotAtScope(front, MatterScope(matterId)), [last], MatterScope(m));
      AtScopeUniform([last], last.key.scope, MatterScope(m));
    }
  }

  lemma CascadeKeepsSound(l: Ledger, matterId: nat)
    requires Sound(l)
    ensures Sound(Cascade(l, matterId))
    ensures AtScope(Cascade(l, matterId).grants, MatterScope(matterId)) == []
    ensures forall g :: g in Cascade(l, matterId).grants <==> g in l.grants && g.key.scope != MatterScope(matterId)
  {
    NotAtScopeDistinct(l.grants, MatterScope(matterId));
    var after := Cascade(l, matterId);
    NotAtScopeLive(l.grants, matterId, matterId);
    forall m
      ensures Live(after.grants, m) == Balance(after.events, m)
    {
      assert Live(l.grants, m) == Balance(l.events, m);
      NotAtScopeLive(l.grants, matterId, m);
      var e := GrantsCascaded(matterId, Live(l.grants, matterId));
      BalanceConcat(l.events, [e], m);
      BalanceOne(e, m);
    }
  }

  // ---- Every run ----

  datatype Op =
    | CreateOp(user: nat, plugin: string, skill: string, matterId: nat, declaration: Declaration)
    | RevokeOp(user: nat, matterId: nat, id: nat)
    | CascadeOp(matterId: nat)
    | WorkspaceGrantOp(user: nat, plugin: string, skill: string, capability: string)
    | CheckOp(user: nat, plugin: string, skill: string, capability: string, matter: Option<nat>)

  /** A default-scope grant: inserted unless its key is there, with no audit event. */
  function GrantWorkspace(l: Ledger, key: GrantKey): Ledger {
    if HasKey(l.grants, key) then l else l.(grants := l.grants + [Grant(l.nextId, key)], nextId := l.nextId + 1)
  }

  /** A denial names the user, module, capability and scope that were asked for. */
  function Check(l: Ledger, key: GrantKey): Ledger {
    if HasKey(l.grants, key) then l else l.(events := l.events + [CapabilityDenied(key)])
  }

  function Apply(l: Ledger, op: Op): Ledger {
    match op
    case CreateOp(user, plugin, skill, m, d) =>
      if d.scope == "matter" then Create(l, KeysFor(user, plugin, skill, m, d), m) else l
    case RevokeOp(user, m, id) => Revoke(l, user, m, id)
    case CascadeOp(m) => Cascade(l, m)
    case WorkspaceGrantOp(user, plugin, skill, capability) =>
      GrantWorkspace(l, GrantKey(user, plugin, skill, capability, Workspace))
    case CheckOp(user, plugin, skill, capability, matter) =>
      Check(l, CheckedKey(user, plugin, skill, capability, matter))
  }

  lemma GrantWorkspaceKeepsSound(l: Ledger, key: GrantKey)
    requires Sound(l) && key.scope == Workspace
    ensures Sound(GrantWorkspace(l, key))
  {
    if !HasKey(l.grants, key) {
      var row := Grant(l.nextId, key);
      UniqueAppend(l.grants, l.nextId, key);
      forall m
        ensures Live(l.grants + [row], m) == Balance(l.events, m)
      {
        assert Live(l.grants, m) == Balance(l.events, m);
        AtScopeConcat(l.grants, [row], MatterScope(m));
        AtScopeUniform([row], Workspace, MatterScope(m));
      }
    }
  }

  lemma CheckKeepsSound(l: Ledger, key: GrantKey)
    requires Sound(l)
    ensures Sound(Check(l, key))
  {
    forall m
      ensures Live(l.grants, m) == Balance(l.events + [CapabilityDenied(key)], m)
    {
      assert Live(l.grants, m) == Balance(l.events, m);
      BalanceConcat(l.events, [CapabilityDenied(key)], m);
      BalanceOne(CapabilityDenied(key), m);
    }
  }

  lemma ApplyKeepsSound(l: Ledger, op: Op)
    requires Sound(l)
    ensures Sound(Apply(l, op))
  {
    match op
    case CreateOp(user, plugin, skill, m, d) => CreateKeepsSound(l, KeysFor(user, plugin, skill, m, d), m);
    case RevokeOp(user, m, id) => RevokeKeepsSound(l, user, m, id);
    case CascadeOp(m) => CascadeKeepsSound(l, m);
    case WorkspaceGrantOp(user, plugin, skill, capability) =>
      GrantWorkspaceKeepsSound(l, GrantKey(user, plugin, skill, capability, Workspace));
    case CheckOp(user, plugin, skill, capability, matter) =>
      CheckKeepsSound(l, CheckedKey(user, plugin, skill, capability, matter));
  }

  function Run(ops: seq<Op>): Ledger {
    if ops == [] then Ledger([], [], 0) else Apply(Run(ops[..|ops| - 1]), ops[|ops| - 1])
  }

  /** Over every run, keys stay unique and the live grants on every matter are the created events
      less the explicit revocations less what the cascades counted. */
  lemma {:induction false} EveryRunSound(ops: seq<Op>)
    ensures Sound(Run(ops))
  {
    if ops == [] {
      assert forall m :: AtScope([], MatterScope(m)) == [];
    } else {
      EveryRunSound(ops[..|ops| - 1]);
      ApplyKeepsSound(Run(ops[..|ops| - 1]), ops[|ops| - 1]);
    }
  }

  // ---- Checks against grants ----

  /** A check succeeds on exactly one scope: a workspace grant never satisfies a matter check, a
      matter's grant neither the workspace check nor another matter's. */
  lemma CheckIsAtOwnScope(l: Ledger, user: nat, plugin: string, skill: string, capability: string, matter: Option<nat>)
    ensures HasKey(l.grants, CheckedKey(user, plugin, skill, capability, matter)) <==>
            HasKey(AtScope(l.grants, if matter.None? then Workspace else MatterScope(matter.value)),
                   CheckedKey(user, plugin, skill, capability, matter))
  {
    var key := CheckedKey(user, plugin, skill, capability, matter);
    HasKeyIff(l.grants, key);
    HasKeyIff(AtScope(l.grants, key.scope), key);
  }

  /** After a grant, every declared read and write passes at that matter; after the cascade none does. */
  lemma GrantedUntilCascade(l: Ledger, user: nat, plugin: string, skill: string, matterId: nat, d: Declaration, capability: string)
    requires capability in d.readList + d.writeList
    ensures var granted := Create(l, KeysFor(user, plugin, skill, matterId, d), matterId);
            var key := CheckedKey(user, plugin, skill, capability, Some(matterId));
            HasKey(granted.grants, key) && !HasKey(Cascade(granted, matterId).grants, key)
  {
    var keys, strings := KeysFor(user, plugin, skill, matterId, d), d.readList + d.writeList;
    var i :| 0 <= i < |strings| && strings[i] == capability;
    assert keys[i] == CheckedKey(user, plugin, skill, capability, Some(matterId));
    assert keys[..|keys|] == keys;
    AllKeysPresent(l.grants, keys, |keys|, l.nextId, keys[i]);
    HasKeyIff(Cascade(Create(l, keys, matterId), matterId).grants, keys[i]);
  }

  /** A grant of a capability string the declaration lists, to this user, at this matter. */
  predicate Grantable(user: nat, plugin: string, skill: string, matterId: nat, d: Declaration, key: GrantKey) {
    && key.user == user && key.plugin == plugin && key.skill == skill && key.scope == MatterScope(matterId)
    && (key.capability in d.readList || key.capability in d.writeList)
  }

  /** The keys of a declaration are those of the strings it lists. */
  lemma KeysAsDeclared(user: nat, plugin: string, skill: string, matterId: nat, d: Declaration, key: GrantKey)
    ensures key in KeysFor(user, plugin, skill, matterId, d) <==> Grantable(user, plugin, skill, matterId, d, key)
  {
    var strings, keys := d.readList + d.writeList, KeysFor(user, plugin, skill, matterId, d);
    if Grantable(user, plugin, skill, matterId, d, key) {
      assert key.capability in strings;
      var i :| 0 <= i < |strings| && strings[i] == key.capability;
      assert keys[i] == key;
    }
  }

  lemma GrantedAsDeclared(grants: seq<Grant>, nextId: nat, user: nat, plugin: string, skill: string, matterId: nat, d: Declaration)
    ensures var rows := NewRows(grants, KeysFor(user, plugin, skill, matterId, d), nextId);
            && (forall g :: g in rows ==> Grantable(user, plugin, skill, matterId, d, g.key))
            && forall key :: Grantable(user, plugin, skill, matterId, d, key) ==>
                             exists g :: g in grants + rows && g.key == key
  {
    var keys := KeysFor(user, plugin, skill, matterId, d);
    NewRowsKeys(grants, keys, nextId);
    assert keys[..|keys|] == keys;
    forall key
      ensures key in keys <==> Grantable(user, plugin, skill, matterId, d, key)
    {
      KeysAsDeclared(user, plugin, skill, matterId, d, key);
    }
    forall key | Grantable(user, plugin, skill, matterId, d, key)
      ensures exists g :: g in grants + NewRows(grants, keys, nextId) && g.key == key
    {
      AllKeysPresent(grants, keys, |keys|, nextId, key);
      HasKeyIff(grants + NewRows(grants, keys, nextId), key);
    }
  }

  // ---- The table, updated in place ----

  class GrantTable {
    var grants: seq<Grant>
    var events: seq<Event>
    var nextId: nat

    function State(): Ledger
      reads this
    {
      Ledger(grants, events, nextId)
    }

    constructor ()
      ensures State() == Run([])
    {
      grants, events, nextId := [], [], 0;
    }

    /** `create_grants_for_capability`: one row per declared string that has none yet, then one
        event per row written. */
    method CreateForCapability(user: nat, plugin: string, skill: string, matterId: nat, declared: Option<Declaration>)
      returns (result: Result<Creation, Error>)
      modifies this
      ensures result.Ok? <==> declared.Some? && declared.value.scope == "matter"
      ensures result == Err(NotDeclared) <==> declared.None?
      ensures result == Err(ScopeUnsupported) <==> declared.Some? && declared.value.scope != "matter"
      ensures result.Err? ==> State() == old(State())
      ensures result.Ok? ==>
                forall key :: Grantable(user, plugin, skill, matterId, declared.value, key) ==>
                              exists g :: g in grants && g.key == key
      ensures result.Ok? ==>
                forall g :: g in result.value.created ==> Grantable(user, plugin, skill, matterId, declared.value, g.key)
      ensures result.Ok? ==>
                && |events| == |old(events)| + |result.value.created| && events[..|old(events)|] == old(events)
                && forall i :: 0 <= i < |result.value.created| ==>
                               events[|old(events)| + i] == GrantCreated(matterId, result.value.created[i].id)
      ensures result.Ok? ==>
                && declared.Some?
                && State() == Create(old(State()), KeysFor(user, plugin, skill, matterId, declared.value), matterId)
                && State() == Apply(old(State()), CreateOp(user, plugin, skill, matterId, declared.value))
                && State().grants == old(State()).grants + result.value.created
                && |result.value.created| + |result.value.existing| == |declared.value.readList + declared.value.writeList|
                && forall g :: g in result.value.existing ==>
                               && g in State().grants
                               && g.key in KeysFor(user, plugin, skill, matterId, declared.value)
    {
      if declared.None? {
        return Err(NotDeclared);
      }
      if declared.value.scope != "matter" {
        return Err(ScopeUnsupported);
      }
      var keys := KeysFor(user, plugin, skill, matterId, declared.value);
      var created, existing := InsertMissing(keys);
      EmitCreated(created, matterId);
      result := Ok(Creation(created, existing));
      assert keys[..|keys|] == keys;
      FoundRowsInTable(old(grants), keys, |keys|, old(nextId));
      GrantedAsDeclared(old(grants), old(nextId), user, plugin, skill, matterId, declared.value);
    }

    /** Looks the key up and inserts a row if there is none; the next lookup sees the row. */
    method InsertIfMissing(key: GrantKey) returns (added: seq<Grant>, found: seq<Grant>)
      modifies this
      ensures added == if HasKey(old(grants), key) then [] else [Grant(old(nextId), key)]
      ensures found == if HasKey(old(grants), key) then [RowWith(old(grants), key)] else []
      ensures grants == old(grants) + added && nextId == old(nextId) + |added| && events == old(events)
    {
      if HasKey(grants, key) {
        added, found := [], [RowWith(grants, key)];
        assert grants + [] == grants;
      } else {
        added, found := [Grant(nextId, key)], [];
        grants := grants + added;
        nextId := nextId + 1;
      }
    }

    method InsertMissing(keys: seq<GrantKey>) returns (created: seq<Grant>, existing: seq<Grant>)
      modifies this
      ensures Inserted(old(State()), keys, created, existing)
    {
      created, existing := [], [];
      for i := 0 to |keys|
        invariant Inserted(old(State()), keys[..i], created, existing)
      {
        created, existing := InsertNext(old(State()), keys, i, created, existing);
      }
      assert keys[..|keys|] == keys;
    }

    /** The table holds `before`'s rows and those created for `keys`; the other keys were found. */
    ghost predicate Inserted(before: Ledger, keys: seq<GrantKey>, created: seq<Grant>, existing: seq<Grant>)
      reads this
    {
      && created == NewRows(before.grants, keys, before.nextId)
      && existing == FoundRows(before.grants, keys, before.nextId)
      && State() == Ledger(before.grants + created, before.events, before.nextId + |created|)
    }

    method InsertNext(ghost before: Ledger, keys: seq<GrantKey>, i: nat, created: seq<Grant>, existing: seq<Grant>)
      returns (created': seq<Grant>, existing': seq<Grant>)
      requires i < |keys| && Inserted(before, keys[..i], created, existing)
      modifies this
      ensures Inserted(before, keys[..i + 1], created', existing')
    {
      NewRowsTurn(before.grants, keys, i, before.nextId);
      FoundRowsTurn(before.grants, keys, i, before.nextId);
      var added, found := InsertIfMissing(keys[i]);
      assert before.grants + (created + added) == before.grants + created + added;
      created', existing' := created + added, existing + found;
    }

    method EmitCreated(created: seq<Grant>, matterId: nat)
      modifies this
      ensures grants == old(grants) && nextId == old(nextId)
      ensures events == old(events) + CreatedEvents(created, matterId)
    {
      for i := 0 to |created|
        invariant grants == old(grants) && nextId == old(nextId)
        invariant events == old(events) + CreatedEvents(created, matterId)[..i]
      {
        events := events + [GrantCreated(matterId, created[i].id)];
      }
    }

    /** A grant at the default scope: nothing happens if it is there, and no event is written. */
    method GrantWorkspaceWide(user: nat, plugin: string, skill: string, capability: string)
      modifies this
      ensures State() == Apply(old(State()), WorkspaceGrantOp(user, plugin, skill, capability))
      ensures exists g :: g in grants && Allows(g, user, plugin, skill, capability, None)
      ensures forall g :: g in old(grants) ==> g in grants
      ensures forall g :: g in grants && g !in old(grants) ==> Allows(g, user, plugin, skill, capability, None)
      ensures (exists g :: g in old(grants) && Allows(g, user, plugin, skill, capability, None)) ==> grants == old(grants)
      ensures events == old(events)
    {
      var key := GrantKey(user, plugin, skill, capability, Workspace);
      HasKeyIff(grants, key);
      if !HasKey(grants, key) {
        var row := Grant(nextId, key);
        assert row in grants + [row];
        grants := grants + [row];
        nextId := nextId + 1;
      }
    }

    /** `revoke_grant`: the row deleted, or nothing when the triple check fails. */
    method RevokeGrant(user: nat, matterId: nat, id: nat) returns (row: Option<Grant>)
      modifies this
      ensures State() == Apply(old(State()), RevokeOp(user, matterId, id))
      ensures row.Some? <==> CanRevoke(old(State()), user, matterId, id)
      ensures row.Some? <==> exists g :: g in old(grants) && IsOwn(g, user, matterId, id)
      ensures row.Some? ==> row.value in old(grants) && IsOwn(row.value, user, matterId, id)
      ensures row.Some? ==> events == old(events) + [GrantRevoked(matterId, id)]
      ensures row.Some? ==> forall g :: g in grants <==> g in old(grants) && g.id != id
      ensures row.None? ==> grants == old(grants) && events == old(events)
    {
      for i := 0 to |grants|
        invariant State() == old(State())
        invariant forall g :: g in grants[..i] ==> !Revocable(g, user, matterId, id)
      {
        if Revocable(grants[i], user, matterId, id) {
          row := Some(grants[i]);
          assert grants[i] in grants;
          RemoveIdMembers(grants, id);
          grants := RemoveId(grants, id);
          events := events + [GrantRevoked(matterId, id)];
          return;
        }
        assert grants[..i + 1] == grants[..i] + [grants[i]];
      }
      assert grants[..|grants|] == grants;
      row := None;
    }

    /** The cascade of a tombstone: delete the matter's rows one by one, then one event with the count. */
    method RevokeAllOf(matterId: nat) returns (count: nat)
      modifies this
      ensures State() == Cascade(old(State()), matterId) == Apply(old(State()), CascadeOp(matterId))
      ensures count == Live(old(grants), matterId)
      ensures forall g :: g in grants <==> g in old(grants) && !(g.key.scope.MatterScope? && g.key.scope.matterId == matterId)
      ensures events == old(events) + (if count > 0 then [GrantsCascaded(matterId, count)] else [])
    {
      var kept: seq<Grant> := [];
      count := 0;
      for i := 0 to |grants|
        invariant State() == old(State())
        invariant kept == NotAtScope(grants[..i], MatterScope(matterId))
        invariant count == |AtScope(grants[..i], MatterScope(matterId))|
      {
        assert grants[..i + 1][..i] == grants[..i];
        if grants[i].key.scope == MatterScope(matterId) {
          count := count + 1;
        } else {
          kept := kept + [grants[i]];
        }
      }
      assert grants[..|grants|] == grants;
      grants := kept;
      if count > 0 {
        events := events + [GrantsCascaded(matterId, count)];
      }
    }

    /** `require_capability`: true, or a denial on record. */
    method RequireCapability(user: nat, plugin: string, skill: string, capability: string, matter: Option<nat>)
      returns (allowed: bool)
      modifies this
      ensures allowed <==> exists g :: g in old(grants) && Allows(g, user, plugin, skill, capability, matter)
      ensures grants == old(grants)
      ensures allowed ==> events == old(events)
      ensures !allowed ==>
                && |events| == |old(events)| + 1 && events[..|old(events)|] == old(events)
                && var e := events[|old(events)|];
                   e.CapabilityDenied? && Allows(Grant(0, e.key), user, plugin, skill, capability, matter)
      ensures State() == Apply(old(State()), CheckOp(user, plugin, skill, capability, matter))
    {
      HasKeyIff(grants, CheckedKey(user, plugin, skill, capability, matter));
      allowed := HasKey(grants, CheckedKey(user, plugin, skill, capability, matter));
      if !allowed {
        events := events + [CapabilityDenied(CheckedKey(user, plugin, skill, capability, matter))];
      }
    }
  }
}

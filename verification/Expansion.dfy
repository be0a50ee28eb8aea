/** The diff between two permission snapshots that decides whether a module update needs a fresh
    trust ceremony, and what a chain of updates that never needed one can add up to. */
module Expansion {
  import opened Options

  // ---- Snapshots ----

  /** One declared capability. Values of the wrong JSON type are dropped before they get here. */
  datatype Capability = Capability(readList: seq<string>, writeList: seq<string>, tier: Option<string>,
                                   externalNetwork: bool, destinations: seq<string>, gates: seq<string>,
                                   modelAccess: string)

  /** A stored permission card has the top-level values; a manifest leaves them empty. */
  datatype Snapshot = Snapshot(capabilities: seq<Capability>, tierMax: Option<string>, destinations: set<string>,
                               gates: set<string>)

  datatype Dimension = Reads | Writes | Destinations | Gates

  function Listed(c: Capability, d: Dimension): seq<string> {
    match d
    case Reads => c.readList
    case Writes => c.writeList
    case Destinations => c.destinations
    case Gates => c.gates
  }

  function TopLevel(s: Snapshot, d: Dimension): set<string> {
    match d
    case Reads => {}
    case Writes => {}
    case Destinations => s.destinations
    case Gates => s.gates
  }

  /** The snapshot declares `v` in dimension `d`, at the top level or in some capability. */
  ghost predicate Declares(s: Snapshot, d: Dimension, v: string) {
    v in TopLevel(s, d) || exists c :: c in s.capabilities && v in Listed(c, d)
  }

  /** The extractors: a set filled first from the top level, then capability by capability. */
  method Flatten(s: Snapshot, d: Dimension) returns (out: set<string>)
    ensures forall v :: v in out <==> Declares(s, d, v)
  {
    out := TopLevel(s, d);
    for i := 0 to |s.capabilities|
      invariant forall v :: v in out <==>
                            v in TopLevel(s, d) || exists c :: c in s.capabilities[..i] && v in Listed(c, d)
    {
      var c := s.capabilities[i];
      assert s.capabilities[..i + 1] == s.capabilities[..i] + [c];
      for j := 0 to |Listed(c, d)|
        invariant forall v :: v in out <==>
                              || v in TopLevel(s, d)
                              || (exists e :: e in s.capabilities[..i] && v in Listed(e, d))
                              || v in Listed(c, d)[..j]
      {
        assert Listed(c, d)[..j + 1] == Listed(c, d)[..j] + [Listed(c, d)[j]];
        out := out + {Listed(c, d)[j]};
      }
      assert Listed(c, d)[..|Listed(c, d)|] == Listed(c, d);
      assert forall v :: (exists e :: e in s.capabilities[..i + 1] && v in Listed(e, d)) <==>
                         (exists e :: e in s.capabilities[..i] && v in Listed(e, d)) || v in Listed(c, d);
    }
    assert s.capabilities[..|s.capabilities|] == s.capabilities;
  }

  // ---- Ranked dimensions ----

  const FACTUAL_EXTRACTION := "factual_extraction"

  /** The rank of an advice tier; `None` for a name outside the vocabulary, on which the diff raises. */
  function TierRank(tier: string): Option<nat> {
    if tier == FACTUAL_EXTRACTION then Some(1)
    else if tier == "legal_information" then Some(2)
    else if tier == "draft_advice" then Some(3)
    else if tier == "supervised_legal_advice" then Some(4)
    else if tier == "approved_final_advice" then Some(5)
    else None
  }

  /** Model access by strictness; anything unknown counts as none. */
  function ModelAccessRank(v: string): nat {
    if v == "optional" then 1 else if v == "delegated" then 2 else if v == "required" then 3 else 0
  }

  ghost predicate NamesTier(s: Snapshot, tier: string) {
    s.tierMax == Some(tier) || exists c :: c in s.capabilities && c.tier == Some(tier)
  }

  ghost predicate TiersKnown(s: Snapshot) {
    forall t :: NamesTier(s, t) ==> TierRank(t).Some?
  }

  function TierOf(t: Option<string>): nat {
    if t.Some? && TierRank(t.value).Some? then TierRank(t.value).value else 0
  }

  function CandidateTier(c: Capability): nat {
    TierOf(c.tier)
  }

  /** The highest rank among the candidates, 0 when there is none. */
  function HighestFrom(caps: seq<Capability>, top: nat): nat {
    if caps == [] then top
    else
      var rest := HighestFrom(caps[..|caps| - 1], top);
      if CandidateTier(caps[|caps| - 1]) > rest then CandidateTier(caps[|caps| - 1]) else rest
  }

  /** The rank of the snapshot's highest tier; without any tier, that of factual extraction. */
  function HighestTier(s: Snapshot): nat {
    var highest := HighestFrom(s.capabilities, TierOf(s.tierMax));
    if highest == 0 then 1 else highest
  }

  function MaxModelAccess(caps: seq<Capability>): nat {
    if caps == [] then 0
    else
      var rest, last := MaxModelAccess(caps[..|caps| - 1]), ModelAccessRank(caps[|caps| - 1].modelAccess);
      if last > rest then last else rest
  }

  lemma {:induction false} HighestFromBound(caps: seq<Capability>, top: nat, bound: nat)
    ensures HighestFrom(caps, top) <= bound <==>
            top <= bound && forall c :: c in caps ==> CandidateTier(c) <= bound
  {
    if caps != [] {
      var front, last := caps[..|caps| - 1], caps[|caps| - 1];
      assert caps == front + [last];
      HighestFromBound(front, top, bound);
    }
  }

  lemma {:induction false} MaxModelAccessBound(caps: seq<Capability>, bound: nat)
    ensures MaxModelAccess(caps) <= bound <==> forall c :: c in caps ==> ModelAccessRank(c.modelAccess) <= bound
  {
    if caps != [] {
      var front, last := caps[..|caps| - 1], caps[|caps| - 1];
      assert caps == front + [last];
      MaxModelAccessBound(front, bound);
    }
  }

  ghost predicate UsesNetwork(s: Snapshot) {
    exists c :: c in s.capabilities && c.externalNetwork
  }

  method AnyExternalNetwork(s: Snapshot) returns (found: bool)
    ensures found <==> UsesNetwork(s)
  {
    for i := 0 to |s.capabilities|
      invariant forall c :: c in s.capabilities[..i] ==> !c.externalNetwork
    {
      if s.capabilities[i].externalNetwork {
        return true;
      }
      assert s.capabilities[..i + 1] == s.capabilities[..i] + [s.capabilities[i]];
    }
    assert s.capabilities[..|s.capabilities|] == s.capabilities;
    found := false;
  }

  method AllTiersKnown(s: Snapshot) returns (known: bool)
    ensures known <==> TiersKnown(s)
  {
    if s.tierMax.Some? && TierRank(s.tierMax.value).None? {
      assert NamesTier(s, s.tierMax.value);
      return false;
    }
    for i := 0 to |s.capabilities|
      invariant forall c :: c in s.capabilities[..i] && c.tier.Some? ==> TierRank(c.tier.value).Some?
    {
      var c := s.capabilities[i];
      if c.tier.Some? && TierRank(c.tier.value).None? {
        assert c in s.capabilities;
        assert NamesTier(s, c.tier.value);
        return false;
      }
      assert s.capabilities[..i + 1] == s.capabilities[..i] + [c];
    }
    assert s.capabilities[..|s.capabilities|] == s.capabilities;
    known := true;
  }

  // ---- The diff ----

  datatype Error = InvalidTier

  /** Added and removed strings as sets; the listing order is for display. */
  datatype Report = Report(readsAdded: set<string>, writesAdded: set<string>, tierRaised: bool, networkAdded: bool,
                           newDestinations: set<string>, gatesAdded: set<string>, gatesRemoved: set<string>,
                           modelAccessRaised: bool)

  /** Any expansion asks for the ceremony again. Removed gates are reported but do not count. */
  function RequiresReprompt(r: Report): bool {
    || r.readsAdded != {} || r.writesAdded != {} || r.tierRaised || r.networkAdded
    || r.newDestinations != {} || r.gatesAdded != {} || r.modelAccessRaised
  }

  /** What `grown` permits, `base` permitted already: stated on the declarations themselves. */
  ghost predicate Within(grown: Snapshot, base: Snapshot) {
    && (forall d :: WithinIn(grown, base, d))
    && HighestTier(grown) <= HighestTier(base)
    && (UsesNetwork(grown) ==> UsesNetwork(base))
    && MaxModelAccess(grown.capabilities) <= MaxModelAccess(base.capabilities)
  }

  ghost predicate WithinIn(grown: Snapshot, base: Snapshot, d: Dimension) {
    forall v :: Declares(grown, d, v) ==> Declares(base, d, v)
  }

  method Added(old_: Snapshot, new_: Snapshot, d: Dimension) returns (added: set<string>, removed: set<string>)
    ensures forall v :: v in added <==> Declares(new_, d, v) && !Declares(old_, d, v)
    ensures forall v :: v in removed <==> Declares(old_, d, v) && !Declares(new_, d, v)
    ensures added == {} <==> WithinIn(new_, old_, d)
  {
    var before := Flatten(old_, d);
    var after := Flatten(new_, d);
    added, removed := after - before, before - after;
    if added == {} {
      forall v | Declares(new_, d, v)
        ensures Declares(old_, d, v)
      {
        assert v !in added;
      }
    }
  }

  /** Every difference reported, and every one there is. */
  ghost predicate ReportOk(r: Report, old_: Snapshot, new_: Snapshot) {
    && (forall v :: v in r.readsAdded <==> MayRead(new_, v) && !MayRead(old_, v))
    && (forall v :: v in r.writesAdded <==> MayWrite(new_, v) && !MayWrite(old_, v))
    && (forall v :: v in r.newDestinations <==> MaySendTo(new_, v) && !MaySendTo(old_, v))
    && (forall v :: v in r.gatesAdded <==> GatedBy(new_, v) && !GatedBy(old_, v))
    && (forall v :: v in r.gatesRemoved <==> GatedBy(old_, v) && !GatedBy(new_, v))
    && (r.tierRaised <==> HighestTier(new_) > HighestTier(old_))
    && (r.networkAdded <==> UsesNetwork(new_) && !UsesNetwork(old_))
    && (r.modelAccessRaised <==> MaxModelAccess(new_.capabilities) > MaxModelAccess(old_.capabilities))
  }

  /** `detect_expansion` with `requires_reprompt`: an update passes silently exactly when the new
      snapshot permits nothing the old one did not; a tier outside the vocabulary raises. */
  method DetectExpansion(old_: Snapshot, new_: Snapshot) returns (result: Result<Report, Error>)
    ensures result.Ok? <==> TiersKnown(old_) && TiersKnown(new_)
    ensures result.Ok? ==> (RequiresReprompt(result.value) <==> !Within(new_, old_))
    ensures result.Ok? ==> ReportOk(result.value, old_, new_)
  {
    var readsAdded, _ := Added(old_, new_, Reads);
    var writesAdded, _ := Added(old_, new_, Writes);
    var knownOld := AllTiersKnown(old_);
    var knownNew := AllTiersKnown(new_);
    if !knownOld || !knownNew {
      return Err(InvalidTier);
    }
    var oldNetwork := AnyExternalNetwork(old_);
    var newNetwork := AnyExternalNetwork(new_);
    var newDestinations, _ := Added(old_, new_, Destinations);
    var gatesAdded, gatesRemoved := Added(old_, new_, Gates);
    WithinByDimension(new_, old_);
    forall v: string
      ensures Declares(old_, Reads, v) <==> MayRead(old_, v)
      ensures Declares(new_, Reads, v) <==> MayRead(new_, v)
      ensures Declares(old_, Writes, v) <==> MayWrite(old_, v)
      ensures Declares(new_, Writes, v) <==> MayWrite(new_, v)
      ensures Declares(old_, Destinations, v) <==> MaySendTo(old_, v)
      ensures Declares(new_, Destinations, v) <==> MaySendTo(new_, v)
      ensures Declares(old_, Gates, v) <==> GatedBy(old_, v)
      ensures Declares(new_, Gates, v) <==> GatedBy(new_, v)
    {
      DeclaresListed(old_, v);
      DeclaresListed(new_, v);
    }
    result := Ok(Report(readsAdded, writesAdded, HighestTier(new_) > HighestTier(old_), newNetwork && !oldNetwork,
                        newDestinations, gatesAdded, gatesRemoved,
                        MaxModelAccess(new_.capabilities) > MaxModelAccess(old_.capabilities)));
  }

  lemma WithinByDimension(grown: Snapshot, base: Snapshot)
    ensures (forall d :: WithinIn(grown, base, d)) <==>
            && WithinIn(grown, base, Reads) && WithinIn(grown, base, Writes)
            && WithinIn(grown, base, Destinations) && WithinIn(grown, base, Gates)
  {
    if WithinIn(grown, base, Reads) && WithinIn(grown, base, Writes) &&
       WithinIn(grown, base, Destinations) && WithinIn(grown, base, Gates)
    {
      forall d: Dimension
        ensures WithinIn(grown, base, d)
      {
        match d
        case Reads =>
        case Writes =>
        case Destinations =>
        case Gates =>
      }
    }
  }

  lemma WithinReflexive(s: Snapshot)
    ensures Within(s, s)
  {
  }

  lemma WithinTransitive(c: Snapshot, b: Snapshot, a: Snapshot)
    requires Within(c, b) && Within(b, a)
    ensures Within(c, a)
  {
    forall d: Dimension
      ensures WithinIn(c, a, d)
    {
      assert WithinIn(c, b, d) && WithinIn(b, a, d);
    }
  }

  // ---- The diff, key by key ----

  /** The advice tiers, lowest first. */
  const TIERS := ["factual_extraction", "legal_information", "draft_advice", "supervised_legal_advice", "approved_final_advice"]

  /** The levels of model access, least strict first. */
  const LEVELS := ["none", "optional", "delegated", "required"]

  lemma RanksListed(name: string)
    ensures TierRank(name).Some? <==> name in TIERS
    ensures forall i :: 0 <= i < |TIERS| ==> TierRank(TIERS[i]) == Some(i + 1)
    ensures forall i :: 0 <= i < |LEVELS| ==> ModelAccessRank(LEVELS[i]) == i
    ensures name !in LEVELS ==> ModelAccessRank(name) == 0
  {
    assert TIERS[0] == "factual_extraction" && TIERS[1] == "legal_information" && TIERS[2] == "draft_advice" &&
           TIERS[3] == "supervised_legal_advice" && TIERS[4] == "approved_final_advice";
    assert LEVELS[0] == "none" && LEVELS[1] == "optional" && LEVELS[2] == "delegated" && LEVELS[3] == "required";
  }

  // Which strings a snapshot declares, by the keys they are listed under.

  ghost predicate MayRead(s: Snapshot, v: string) {
    exists c :: c in s.capabilities && v in c.readList
  }

  ghost predicate MayWrite(s: Snapshot, v: string) {
    exists c :: c in s.capabilities && v in c.writeList
  }

  ghost predicate MaySendTo(s: Snapshot, v: string) {
    v in s.destinations || exists c :: c in s.capabilities && v in c.destinations
  }

  ghost predicate GatedBy(s: Snapshot, v: string) {
    v in s.gates || exists c :: c in s.capabilities && v in c.gates
  }

  lemma DeclaresListed(s: Snapshot, v: string)
    ensures Declares(s, Reads, v) <==> MayRead(s, v)
    ensures Declares(s, Writes, v) <==> MayWrite(s, v)
    ensures Declares(s, Destinations, v) <==> MaySendTo(s, v)
    ensures Declares(s, Gates, v) <==> GatedBy(s, v)
  {
    assert forall c: Capability :: v in c.readList <==> v in Listed(c, Reads);
    assert forall c: Capability :: v in c.writeList <==> v in Listed(c, Writes);
    assert forall c: Capability :: v in c.destinations <==> v in Listed(c, Destinations);
    assert forall c: Capability :: v in c.gates <==> v in Listed(c, Gates);
  }

  /** The snapshot names a tier at or above place `i` of the list, at the top or in a capability. */
  ghost predicate ReachesTier(s: Snapshot, i: nat) {
    exists j :: i <= j < |TIERS| && NamesTier(s, TIERS[j])
  }

  ghost predicate ReachesLevel(s: Snapshot, i: nat) {
    exists c, j :: c in s.capabilities && i <= j < |LEVELS| && c.modelAccess == LEVELS[j]
  }

  /** A snapshot's highest tier is beyond place `i` exactly when it names a tier there or above. */
  lemma HighestTierListed(s: Snapshot, i: nat)
    requires TiersKnown(s) && 0 < i < |TIERS|
    ensures HighestTier(s) > i <==> ReachesTier(s, i)
  {
    HighestFromBound(s.capabilities, TierOf(s.tierMax), i);
    RanksListed("");
    if HighestTier(s) > i {
      if TierOf(s.tierMax) > i {
        TierPlace(s.tierMax.value);
        assert NamesTier(s, s.tierMax.value);
      } else {
        var c :| c in s.capabilities && CandidateTier(c) > i;
        TierPlace(c.tier.value);
        assert NamesTier(s, c.tier.value);
      }
    }
    if ReachesTier(s, i) {
      var j :| i <= j < |TIERS| && NamesTier(s, TIERS[j]);
      if s.tierMax != Some(TIERS[j]) {
        var c :| c in s.capabilities && c.tier == Some(TIERS[j]);
        assert CandidateTier(c) > i;
      }
    }
  }

  lemma TierPlace(name: string)
    requires TierRank(name).Some?
    ensures 1 <= TierRank(name).value <= |TIERS| && TIERS[TierRank(name).value - 1] == name
  {
    RanksListed(name);
    var i :| 0 <= i < |TIERS| && TIERS[i] == name;
  }

  lemma LevelPlace(name: string)
    requires ModelAccessRank(name) > 0
    ensures ModelAccessRank(name) < |LEVELS| && LEVELS[ModelAccessRank(name)] == name
  {
    RanksListed(name);
    var i :| 0 <= i < |LEVELS| && LEVELS[i] == name;
  }

  lemma MaxModelAccessListed(s: Snapshot, i: nat)
    requires 0 < i < |LEVELS|
    ensures MaxModelAccess(s.capabilities) >= i <==> ReachesLevel(s, i)
  {
    MaxModelAccessBound(s.capabilities, i - 1);
    RanksListed("");
    if MaxModelAccess(s.capabilities) >= i {
      var c :| c in s.capabilities && ModelAccessRank(c.modelAccess) >= i;
      LevelPlace(c.modelAccess);
    }
    if ReachesLevel(s, i) {
      var c, j :| c in s.capabilities && i <= j < |LEVELS| && c.modelAccess == LEVELS[j];
      assert ModelAccessRank(c.modelAccess) == j;
    }
  }

  /** When an update is silent, key by key: it reads, writes, sends and gates nothing new, uses the
      network only if that was granted, and reaches no higher tier and no stricter model access. */
  lemma WithinListed(grown: Snapshot, base: Snapshot)
    requires TiersKnown(grown) && TiersKnown(base)
    ensures Within(grown, base) <==>
            && (forall v :: MayRead(grown, v) ==> MayRead(base, v))
            && (forall v :: MayWrite(grown, v) ==> MayWrite(base, v))
            && (forall v :: MaySendTo(grown, v) ==> MaySendTo(base, v))
            && (forall v :: GatedBy(grown, v) ==> GatedBy(base, v))
            && ((exists c :: c in grown.capabilities && c.externalNetwork) ==>
                  exists c :: c in base.capabilities && c.externalNetwork)
            && (forall i :: 0 < i < |TIERS| && ReachesTier(grown, i) ==> ReachesTier(base, i))
            && (forall i :: 0 < i < |LEVELS| && ReachesLevel(grown, i) ==> ReachesLevel(base, i))
  {
    StringsCompared(grown, base);
    TiersCompared(grown, base);
    LevelsCompared(grown, base);
    WithinByDimension(grown, base);
  }

  lemma StringsCompared(grown: Snapshot, base: Snapshot)
    ensures WithinIn(grown, base, Reads) <==> forall v :: MayRead(grown, v) ==> MayRead(base, v)
    ensures WithinIn(grown, base, Writes) <==> forall v :: MayWrite(grown, v) ==> MayWrite(base, v)
    ensures WithinIn(grown, base, Destinations) <==> forall v :: MaySendTo(grown, v) ==> MaySendTo(base, v)
    ensures WithinIn(grown, base, Gates) <==> forall v :: GatedBy(grown, v) ==> GatedBy(base, v)
  {
    forall v: string
      ensures Declares(grown, Reads, v) <==> MayRead(grown, v)
      ensures Declares(grown, Writes, v) <==> MayWrite(grown, v)
      ensures Declares(grown, Destinations, v) <==> MaySendTo(grown, v)
      ensures Declares(grown, Gates, v) <==> GatedBy(grown, v)
      ensures Declares(base, Reads, v) <==> MayRead(base, v)
      ensures Declares(base, Writes, v) <==> MayWrite(base, v)
      ensures Declares(base, Destinations, v) <==> MaySendTo(base, v)
      ensures Declares(base, Gates, v) <==> GatedBy(base, v)
    {
      DeclaresListed(grown, v);
      DeclaresListed(base, v);
    }
  }

  lemma TiersCompared(grown: Snapshot, base: Snapshot)
    requires TiersKnown(grown) && TiersKnown(base)
    ensures HighestTier(grown) <= HighestTier(base) <==>
            forall i :: 0 < i < |TIERS| && ReachesTier(grown, i) ==> ReachesTier(base, i)
  {
    forall i | 0 < i < |TIERS|
      ensures HighestTier(grown) > i <==> ReachesTier(grown, i)
      ensures HighestTier(base) > i <==> ReachesTier(base, i)
    {
      HighestTierListed(grown, i);
      HighestTierListed(base, i);
    }
    HighestFromBound(grown.capabilities, TierOf(grown.tierMax), |TIERS|);
    var top := HighestTier(grown) - 1;
    if 0 < top {
      HighestTierListed(grown, top);
      HighestTierListed(base, top);
    }
  }

  lemma LevelsCompared(grown: Snapshot, base: Snapshot)
    ensures MaxModelAccess(grown.capabilities) <= MaxModelAccess(base.capabilities) <==>
            forall i :: 0 < i < |LEVELS| && ReachesLevel(grown, i) ==> ReachesLevel(base, i)
  {
    forall i | 0 < i < |LEVELS|
      ensures MaxModelAccess(grown.capabilities) >= i <==> ReachesLevel(grown, i)
      ensures MaxModelAccess(base.capabilities) >= i <==> ReachesLevel(base, i)
    {
      MaxModelAccessListed(grown, i);
      MaxModelAccessListed(base, i);
    }
    MaxModelAccessBound(grown.capabilities, |LEVELS| - 1);
    var top := MaxModelAccess(grown.capabilities);
    if 0 < top {
      MaxModelAccessListed(grown, top);
      MaxModelAccessListed(base, top);
    }
  }

  // ---- Permission cards ----

  /** What the manifest schema guarantees: no aggregate values at the top, a known tier everywhere. */
  predicate ValidManifest(m: Snapshot) {
    && m.tierMax.None? && m.destinations == {} && m.gates == {}
    && forall c :: c in m.capabilities ==> c.tier.Some? && TierRank(c.tier.value).Some?
  }

  /** The schema accepts every manifest with nothing aggregated at the top and one of the five tiers
      on each capability, and no other. */
  lemma SchemaListed(m: Snapshot)
    ensures ValidManifest(m) <==>
            && m.tierMax == None && m.destinations == {} && m.gates == {}
            && forall c :: c in m.capabilities ==> c.tier.Some? && c.tier.value in TIERS
  {
    forall c | c in m.capabilities && c.tier.Some?
      ensures TierRank(c.tier.value).Some? <==> c.tier.value in TIERS
    {
      RanksListed(c.tier.value);
    }
  }

  /** A capability as the card lists it. */
  function CardCapability(c: Capability): Capability {
    c.(destinations := [], gates := [])
  }

  function CardCapabilities(caps: seq<Capability>): (r: seq<Capability>)
    ensures |r| == |caps| && forall i :: 0 <= i < |caps| ==> r[i] == CardCapability(caps[i])
  {
    seq(|caps|, i requires 0 <= i < |caps| => CardCapability(caps[i]))
  }

  /** The name of the highest tier, taken capability by capability from the lowest one up. */
  function CardTier(caps: seq<Capability>): string {
    if caps == [] then FACTUAL_EXTRACTION
    else
      var rest, last := CardTier(caps[..|caps| - 1]), caps[|caps| - 1];
      if last.tier.Some? && CandidateTier(last) > TierOf(Some(rest)) then last.tier.value else rest
  }

  /** `build_permission_card`: destinations, gates and the highest tier move to the top. */
  function Card(m: Snapshot): Snapshot {
    Snapshot(CardCapabilities(m.capabilities), Some(CardTier(m.capabilities)),
             set c, v | c in m.capabilities && v in c.destinations :: v,
             set c, v | c in m.capabilities && v in c.gates :: v)
  }

  lemma {:induction false} CardTierIsHighest(caps: seq<Capability>)
    requires forall c :: c in caps ==> c.tier.Some? && TierRank(c.tier.value).Some?
    ensures TierRank(CardTier(caps)).Some?
    ensures TierOf(Some(CardTier(caps))) == if HighestFrom(caps, 0) == 0 then 1 else HighestFrom(caps, 0)
  {
    if caps != [] {
      var front, last := caps[..|caps| - 1], caps[|caps| - 1];
      assert caps == front + [last];
      CardTierIsHighest(front);
    }
  }

  lemma {:induction false} SameRanks(caps: seq<Capability>, like: seq<Capability>, top: nat)
    requires |like| == |caps|
    requires forall i :: 0 <= i < |caps| ==> like[i].tier == caps[i].tier && like[i].modelAccess == caps[i].modelAccess
    ensures HighestFrom(like, top) == HighestFrom(caps, top)
    ensures MaxModelAccess(like) == MaxModelAccess(caps)
  {
    if caps != [] {
      SameRanks(caps[..|caps| - 1], like[..|caps| - 1], top);
    }
  }

  /** The top-level tier of a card is the highest anyway. */
  lemma {:induction false} HighestFromTop(caps: seq<Capability>, top: nat)
    requires HighestFrom(caps, 0) <= top
    ensures HighestFrom(caps, top) == top
  {
    HighestFromBound(caps, 0, top);
    HighestFromBound(caps, top, top);
    HighestFromAtLeast(caps, top);
  }

  lemma {:induction false} HighestFromAtLeast(caps: seq<Capability>, top: nat)
    ensures HighestFrom(caps, top) >= top
  {
    if caps != [] {
      HighestFromAtLeast(caps[..|caps| - 1], top);
    }
  }

  lemma CardRanks(m: Snapshot)
    requires ValidManifest(m)
    ensures HighestTier(Card(m)) == HighestTier(m)
    ensures MaxModelAccess(Card(m).capabilities) == MaxModelAccess(m.capabilities)
  {
    var top := TierOf(Some(CardTier(m.capabilities)));
    SameRanks(m.capabilities, Card(m).capabilities, top);
    CardTierIsHighest(m.capabilities);
    HighestFromTop(m.capabilities, top);
  }

  lemma CardDeclares(m: Snapshot, d: Dimension, v: string)
    requires ValidManifest(m)
    ensures Declares(Card(m), d, v) <==> Declares(m, d, v)
  {
    var caps := Card(m).capabilities;
    if v !in TopLevel(Card(m), d) && Declares(Card(m), d, v) {
      var c :| c in caps && v in Listed(c, d);
      var i :| 0 <= i < |caps| && caps[i] == c;
      assert m.capabilities[i] in m.capabilities && v in Listed(m.capabilities[i], d);
    }
    if Declares(m, d, v) {
      var c :| c in m.capabilities && v in Listed(c, d);
      var i :| 0 <= i < |caps| && m.capabilities[i] == c;
      assert caps[i] in caps;
    }
  }

  lemma CardNetwork(m: Snapshot)
    ensures UsesNetwork(Card(m)) <==> UsesNetwork(m)
  {
    var caps := Card(m).capabilities;
    if UsesNetwork(Card(m)) {
      var i :| 0 <= i < |caps| && caps[i].externalNetwork;
      assert m.capabilities[i] in m.capabilities;
    }
    if UsesNetwork(m) {
      var i :| 0 <= i < |caps| && m.capabilities[i].externalNetwork;
      assert caps[i] in caps;
    }
  }

  /** A card permits exactly what its manifest does, so comparing a manifest with a stored card is
      comparing it with the manifest the card was built from. */
  lemma CardIsFaithful(m: Snapshot)
    requires ValidManifest(m)
    ensures Within(Card(m), m) && Within(m, Card(m))
    ensures TiersKnown(m) && TiersKnown(Card(m))
  {
    CardRanks(m);
    CardNetwork(m);
    CardTierIsHighest(m.capabilities);
    forall d: Dimension, v
      ensures Declares(Card(m), d, v) <==> Declares(m, d, v)
    {
      CardDeclares(m, d, v);
    }
    CardTiersKnown(m);
  }

  lemma WithinCardIff(s: Snapshot, m: Snapshot)
    requires ValidManifest(m)
    ensures Within(s, Card(m)) <==> Within(s, m)
  {
    CardIsFaithful(m);
    if Within(s, Card(m)) {
      WithinTransitive(s, Card(m), m);
    }
    if Within(s, m) {
      WithinTransitive(s, m, Card(m));
    }
  }

  lemma CardTiersKnown(m: Snapshot)
    requires ValidManifest(m)
    ensures TiersKnown(m) && TiersKnown(Card(m))
  {
    CardTierIsHighest(m.capabilities);
    var caps := Card(m).capabilities;
    forall t | NamesTier(Card(m), t)
      ensures TierRank(t).Some?
    {
      if Card(m).tierMax != Some(t) {
        var i :| 0 <= i < |caps| && caps[i].tier == Some(t);
        assert m.capabilities[i] in m.capabilities;
      }
    }
  }

  // ---- Chains of silent updates ----

  /** Manifests of one installed module, each admitted against its predecessor's stored card without
      a ceremony. */
  ghost predicate SilentChain(versions: seq<Snapshot>) {
    && (forall m :: m in versions ==> ValidManifest(m))
    && forall i: nat :: i + 1 < |versions| ==> SilentAt(versions, i)
  }

  ghost predicate SilentAt(versions: seq<Snapshot>, i: nat)
    requires i + 1 < |versions|
  {
    Within(versions[i + 1], Card(versions[i]))
  }

  ghost predicate StepAt(r: (Snapshot, Snapshot) -> bool, versions: seq<Snapshot>, i: nat)
    requires i + 1 < |versions|
  {
    r(versions[i + 1], versions[i])
  }

  /** A preorder that holds from each version to the next holds from any to any later one. */
  lemma {:induction false} HoldsThroughout(r: (Snapshot, Snapshot) -> bool, versions: seq<Snapshot>, i: nat, j: nat)
    requires forall x :: r(x, x)
    requires forall x, y, z :: r(x, y) && r(y, z) ==> r(x, z)
    requires forall k: nat :: k + 1 < |versions| ==> StepAt(r, versions, k)
    requires i <= j < |versions|
    ensures r(versions[j], versions[i])
    decreases j - i
  {
    if i < j {
      HoldsThroughout(r, versions, i, j - 1);
      assert StepAt(r, versions, j - 1);
    }
  }

  lemma WithinIsPreorder()
    ensures forall x :: Within(x, x)
    ensures forall x, y, z :: Within(x, y) && Within(y, z) ==> Within(x, z)
  {
    forall x
      ensures Within(x, x)
    {
      WithinReflexive(x);
    }
    forall x, y, z | Within(x, y) && Within(y, z)
      ensures Within(x, z)
    {
      WithinTransitive(x, y, z);
    }
  }

  /** However many updates pass silently, the last version permits nothing the first did not. */
  lemma SilentChainNeverExpands(versions: seq<Snapshot>, i: nat, j: nat)
    requires SilentChain(versions)
    requires i <= j < |versions|
    ensures Within(versions[j], versions[i])
  {
    ghost var r := (x: Snapshot, y: Snapshot) => Within(x, y);
    forall k: nat | k + 1 < |versions|
      ensures StepAt(r, versions, k)
    {
      assert SilentAt(versions, k);
      WithinCardIff(versions[k + 1], versions[k]);
    }
    WithinIsPreorder();
    HoldsThroughout(r, versions, i, j);
  }

  /** In the ranked dimensions too: every tier and model access the last version names in a capability
      is matched or exceeded by one the first version was granted with. */
  lemma SilentChainBoundsCapabilities(versions: seq<Snapshot>, i: nat, j: nat, c: Capability)
    requires SilentChain(versions)
    requires i <= j < |versions| && c in versions[j].capabilities
    ensures CandidateTier(c) <= HighestTier(versions[i])
    ensures ModelAccessRank(c.modelAccess) <= MaxModelAccess(versions[i].capabilities)
    ensures c.externalNetwork ==> UsesNetwork(versions[i])
    ensures forall v :: v in c.readList ==> MayRead(versions[i], v)
    ensures forall v :: v in c.writeList ==> MayWrite(versions[i], v)
    ensures forall v :: v in c.destinations ==> MaySendTo(versions[i], v)
    ensures forall v :: v in c.gates ==> GatedBy(versions[i], v)
  {
    SilentChainNeverExpands(versions, i, j);
    CapabilityBounds(versions[j], c);
    StringsCompared(versions[j], versions[i]);
    assert WithinIn(versions[j], versions[i], Reads) && WithinIn(versions[j], versions[i], Writes) &&
           WithinIn(versions[j], versions[i], Destinations) && WithinIn(versions[j], versions[i], Gates);
    assert forall v :: v in c.readList ==> MayRead(versions[j], v);
    assert forall v :: v in c.writeList ==> MayWrite(versions[j], v);
    assert forall v :: v in c.destinations ==> MaySendTo(versions[j], v);
    assert forall v :: v in c.gates ==> GatedBy(versions[j], v);
  }

  lemma CapabilityBounds(s: Snapshot, c: Capability)
    requires c in s.capabilities
    ensures CandidateTier(c) <= HighestTier(s) && ModelAccessRank(c.modelAccess) <= MaxModelAccess(s.capabilities)
    ensures c.externalNetwork ==> UsesNetwork(s)
  {
    HighestFromBound(s.capabilities, TierOf(s.tierMax), HighestFrom(s.capabilities, TierOf(s.tierMax)));
    MaxModelAccessBound(s.capabilities, MaxModelAccess(s.capabilities));
  }

  // ---- The installed module ----

  datatype Outcome = Rejected | CeremonyStarted(report: Report) | Updated

  /** A row of `installed_modules`: the manifest and the permission card stored with it. `granted` is
      the manifest the last ceremony granted. */
  class InstalledModule {
    var manifest: Snapshot
    var card: Snapshot
    ghost var granted: Snapshot

    /** The stored card is the manifest's, and the manifest permits nothing that was not granted. */
    ghost predicate Valid()
      reads this
    {
      ValidManifest(manifest) && card == Card(manifest) && Within(manifest, granted)
    }

    /** The end of a ceremony stores its card. */
    constructor (m: Snapshot)
      requires ValidManifest(m)
      ensures Valid() && manifest == m && granted == m
    {
      manifest, card, granted := m, Card(m), m;
      WithinReflexive(m);
    }

    /** The update endpoint; `admissible` is the outcome of its other checks. Nothing is stored unless
        the new manifest stays within the stored card. */
    method Update(new_: Snapshot, admissible: bool) returns (outcome: Outcome)
      requires Valid()
      modifies this
      ensures Valid() && granted == old(granted)
      ensures outcome == Rejected <==> !ValidManifest(new_) || !admissible
      ensures outcome == Updated <==> ValidManifest(new_) && admissible && Within(new_, old(manifest))
      ensures manifest == if outcome == Updated then new_ else old(manifest)
      ensures outcome.CeremonyStarted? ==> ReportOk(outcome.report, old(card), new_)
    {
      if !ValidManifest(new_) || !admissible {
        return Rejected;
      }
      CardTiersKnown(manifest);
      CardTiersKnown(new_);
      var result := DetectExpansion(card, new_);
      WithinCardIff(new_, manifest);
      if RequiresReprompt(result.value) {
        return CeremonyStarted(result.value);
      }
      WithinTransitive(new_, manifest, granted);
      manifest, card := new_, Card(new_);
      outcome := Updated;
    }
  }

  // ---- Gates ----

  /** Gates are the exception: a single silent update may drop every one of them. */
  function WithoutGates(m: Snapshot): Snapshot {
    m.(gates := {}, capabilities := seq(|m.capabilities|, i requires 0 <= i < |m.capabilities| => m.capabilities[i].(gates := [])))
  }

  lemma StrippedOrigin(m: Snapshot, c: Capability) returns (e: Capability)
    requires c in WithoutGates(m).capabilities
    ensures e in m.capabilities && c == e.(gates := [])
  {
    var t := WithoutGates(m).capabilities;
    var i :| 0 <= i < |t| && t[i] == c;
    e := m.capabilities[i];
  }

  lemma StrippedDeclares(m: Snapshot, d: Dimension, v: string)
    requires Declares(WithoutGates(m), d, v)
    ensures Declares(m, d, v) && d != Gates
  {
    var t := WithoutGates(m);
    if v !in TopLevel(t, d) {
      var c :| c in t.capabilities && v in Listed(c, d);
      var e := StrippedOrigin(m, c);
      assert d != Gates && v in Listed(e, d);
    }
  }

  lemma StrippedIsValid(m: Snapshot)
    requires ValidManifest(m)
    ensures ValidManifest(WithoutGates(m))
  {
    forall c | c in WithoutGates(m).capabilities
      ensures c.tier.Some? && TierRank(c.tier.value).Some?
    {
      var e := StrippedOrigin(m, c);
    }
  }

  /** A valid manifest without its gates is a valid manifest, the diff against the stored card raises
      nothing and asks for nothing, and no gate is left. */
  lemma GatesCanBeDroppedSilently(m: Snapshot)
    requires ValidManifest(m)
    ensures ValidManifest(WithoutGates(m)) && TiersKnown(WithoutGates(m)) && TiersKnown(Card(m))
    ensures Within(WithoutGates(m), Card(m))
    ensures forall v :: !Declares(WithoutGates(m), Gates, v)
  {
    var t := WithoutGates(m);
    StrippedIsValid(m);
    SameRanks(m.capabilities, t.capabilities, 0);
    forall d, v | Declares(t, d, v)
      ensures Declares(m, d, v) && d != Gates
    {
      StrippedDeclares(m, d, v);
    }
    if UsesNetwork(t) {
      var c :| c in t.capabilities && c.externalNetwork;
      var e := StrippedOrigin(m, c);
    }
    assert Within(t, m);
    CardIsFaithful(m);
    CardTiersKnown(t);
    WithinTransitive(t, m, Card(m));
  }
}

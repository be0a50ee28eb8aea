/** Matters, jobs, stored objects and grants under every interleaving of requests and worker steps,
    with the tombstone as the destructive transition. */
module Lifecycle {
  import Grants
  import Sets

  // ---- The system's state ----

  datatype MatterStatus = Open | Closed | Archived

  datatype Matter = Matter(owner: nat, status: MatterStatus)

  datatype JobKind = Export | Index

  datatype JobStatus = Queued | Running | Succeeded | Failed

  datatype Job = Job(matterId: nat, creator: nat, kind: JobKind, status: JobStatus)

  /** A stored object lies under the prefix of exactly one matter. */
  datatype Object = Uploaded(matterId: nat, documentId: nat) | Bundle(matterId: nat, jobId: nat)

  /** `queue` holds the job ids delivered to the worker and not yet taken up, `working` those taken up. */
  datatype System = System(matters: map<nat, Matter>, jobs: map<nat, Job>, objects: set<Object>,
                           ledger: Grants.Ledger, queue: set<nat>, working: set<nat>)

  predicate Active(j: Job) {
    j.status == Queued || j.status == Running
  }

  /** Index jobs are spawned by uploads; they neither count against nor are held back by the cap. */
  predicate Interactive(j: Job) {
    j.kind == Export
  }

  function ActiveJobs(jobs: map<nat, Job>, user: nat): set<nat> {
    set id | id in jobs && jobs[id].creator == user && Active(jobs[id]) && Interactive(jobs[id])
  }

  function BlockingJobs(jobs: map<nat, Job>, matterId: nat): set<nat> {
    set id | id in jobs && jobs[id].matterId == matterId && Active(jobs[id]) && Interactive(jobs[id])
  }

  predicate Live(s: System, m: nat) {
    m in s.matters && s.matters[m].status != Archived
  }

  predicate LiveOwned(s: System, user: nat, m: nat) {
    Live(s, m) && s.matters[m].owner == user
  }

  function ObjectsOutside(objects: set<Object>, m: nat): set<Object> {
    set o | o in objects && o.matterId != m
  }

  // ---- The steps ----

  /** How a tombstone's storage purge went: all of the prefix gone, or an error with some left. */
  datatype Purge = Purged | PurgeFailed(left: set<Object>)

  datatype Op =
    | CreateMatter(user: nat, m: nat)
    | Upload(user: nat, m: nat, documentId: nat, jobId: nat, stored: bool, enqueued: bool)
    | RequestExport(user: nat, m: nat, jobId: nat, enqueued: bool)
    | StartJob(jobId: nat)
    | FinishJob(jobId: nat, wrote: bool, ok: bool)
    | Close(user: nat, m: nat)
    | Grant(user: nat, m: nat, superuser: bool, plugin: string, skill: string, declaration: Grants.Declaration)
    | RevokeOne(user: nat, m: nat, superuser: bool, id: nat)
    | Delete(user: nat, m: nat, purge: Purge)
    | Sweep(m: nat, purge: Purge)

  /** A job row as its request leaves it: delivered to the queue, or failed because it could not be. */
  function AddJob(s: System, id: nat, matterId: nat, user: nat, kind: JobKind, enqueued: bool): System {
    if enqueued then
      s.(jobs := s.jobs[id := Job(matterId, user, kind, Queued)], queue := s.queue + {id})
    else
      s.(jobs := s.jobs[id := Job(matterId, user, kind, Failed)])
  }

  /** `tombstone_matter` on a live matter. */
  function Tombstone(s: System, m: nat, purge: Purge): System
    requires m in s.matters
  {
    if BlockingJobs(s.jobs, m) != {} then s
    else
      match purge
      case PurgeFailed(left) => s.(objects := ObjectsOutside(s.objects, m) + (s.objects * left))
      case Purged =>
        s.(objects := ObjectsOutside(s.objects, m),
           matters := s.matters[m := s.matters[m].(status := Archived)],
           ledger := Grants.Cascade(s.ledger, m))
  }

  /** One request or worker step; a request the guards reject changes nothing. */
  function Next(cap: nat, s: System, op: Op): System {
    match op
    case CreateMatter(user, m) => if m in s.matters then s else s.(matters := s.matters[m := Matter(user, Open)])
    case Upload(user, m, doc, id, stored, enqueued) =>
      if !LiveOwned(s, user, m) || id in s.jobs || !stored then s
      else AddJob(s.(objects := s.objects + {Uploaded(m, doc)}), id, m, user, Index, enqueued)
    case RequestExport(user, m, id, enqueued) =>
      if !LiveOwned(s, user, m) || id in s.jobs || |ActiveJobs(s.jobs, user)| >= cap then s
      else AddJob(s, id, m, user, Export, enqueued)
    case StartJob(id) =>
      if id !in s.queue || id !in s.jobs then s
      else if s.jobs[id].matterId !in s.matters then
        s.(queue := s.queue - {id}, jobs := s.jobs[id := s.jobs[id].(status := Failed)])
      else s.(queue := s.queue - {id}, working := s.working + {id}, jobs := s.jobs[id := s.jobs[id].(status := Running)])
    case FinishJob(id, wrote, ok) =>
      if id !in s.working || id !in s.jobs then s
      else Finished(s, id, wrote, ok)
    case Close(user, m) =>
      if LiveOwned(s, user, m) then s.(matters := s.matters[m := s.matters[m].(status := Closed)]) else s
    case Grant(user, m, superuser, plugin, skill, d) =>
      if Live(s, m) && (s.matters[m].owner == user || superuser) && d.scope == "matter" then
        s.(ledger := Grants.Create(s.ledger, Grants.KeysFor(user, plugin, skill, m, d), m))
      else s
    case RevokeOne(user, m, superuser, id) =>
      if Live(s, m) && (s.matters[m].owner == user || superuser) then s.(ledger := Grants.Revoke(s.ledger, user, m, id))
      else s
    case Delete(user, m, purge) => if LiveOwned(s, user, m) then Tombstone(s, m, purge) else s
    case Sweep(m, purge) => if Live(s, m) then Tombstone(s, m, purge) else s
  }

  /** A job's pipeline ends: an export that succeeds has written its bundle, one that fails may have. */
  function Finished(s: System, id: nat, wrote: bool, ok: bool): System
    requires id in s.jobs
  {
    var j := s.jobs[id];
    s.(working := s.working - {id},
       jobs := s.jobs[id := j.(status := if ok then Succeeded else Failed)],
       objects := if j.kind == Export && (ok || wrote) then s.objects + {Bundle(j.matterId, id)} else s.objects)
  }

  // ---- The invariant ----

  /** What deleting a matter promises about it from then on. */
  ghost predicate Gone(s: System, m: nat) {
    && (forall o :: o in s.objects ==> o.matterId != m)
    && (forall g :: g in s.ledger.grants ==> g.key.scope != Grants.MatterScope(m))
    && BlockingJobs(s.jobs, m) == {}
  }

  ghost predicate ArchivedGone(s: System) {
    forall m :: m in s.matters && s.matters[m].status == Archived ==> Gone(s, m)
  }

  /** Ids in the queue are queued jobs, ids at the worker running ones, and both belong to known matters. */
  ghost predicate QueueOk(s: System) {
    && (forall id :: id in s.queue ==> id in s.jobs && s.jobs[id].status == Queued)
    && (forall id :: id in s.working ==> id in s.jobs && s.jobs[id].status == Running)
    && (forall id :: id in s.jobs ==> s.jobs[id].matterId in s.matters)
  }

  ghost predicate NothingUnknown(s: System) {
    && (forall o :: o in s.objects ==> o.matterId in s.matters)
    && (forall g :: g in s.ledger.grants && g.key.scope.MatterScope? ==> g.key.scope.matterId in s.matters)
  }

  ghost predicate CapOk(cap: nat, s: System) {
    forall user :: |ActiveJobs(s.jobs, user)| <= cap
  }

  ghost predicate Inv(cap: nat, s: System) {
    ArchivedGone(s) && QueueOk(s) && NothingUnknown(s) && CapOk(cap, s) && Grants.Sound(s.ledger)
  }

  // ---- Jobs ----

  lemma AddJobActive(s: System, id: nat, matterId: nat, user: nat, kind: JobKind, enqueued: bool, u: nat)
    requires id !in s.jobs
    ensures var added := AddJob(s, id, matterId, user, kind, enqueued).jobs;
            ActiveJobs(added, u) == ActiveJobs(s.jobs, u) + (if enqueued && kind == Export && u == user then {id} else {})
    ensures var added := AddJob(s, id, matterId, user, kind, enqueued).jobs;
            BlockingJobs(added, u) == BlockingJobs(s.jobs, u) + (if enqueued && kind == Export && u == matterId then {id} else {})
  {
  }

  lemma SettingStatus(s: System, id: nat, status: JobStatus, u: nat)
    requires id in s.jobs && Active(s.jobs[id])
    ensures ActiveJobs(s.jobs[id := s.jobs[id].(status := status)], u) <= ActiveJobs(s.jobs, u)
    ensures BlockingJobs(s.jobs[id := s.jobs[id].(status := status)], u) <= BlockingJobs(s.jobs, u)
  {
  }

  /** An interactive job the worker holds keeps its matter from being archived. */
  lemma WorkingMatterIsLive(s: System, id: nat)
    requires ArchivedGone(s) && QueueOk(s)
    requires id in s.jobs && Active(s.jobs[id]) && Interactive(s.jobs[id])
    ensures Live(s, s.jobs[id].matterId)
  {
    assert id in BlockingJobs(s.jobs, s.jobs[id].matterId);
  }

  // ---- Each step keeps the invariant ----

  lemma AddJobKeepsInv(cap: nat, s: System, id: nat, m: nat, user: nat, kind: JobKind, enqueued: bool)
    requires Inv(cap, s) && Live(s, m)
    requires id !in s.jobs
    requires kind == Export ==> |ActiveJobs(s.jobs, user)| < cap
    ensures Inv(cap, AddJob(s, id, m, user, kind, enqueued))
  {
    var t := AddJob(s, id, m, user, kind, enqueued);
    forall u
      ensures |ActiveJobs(t.jobs, u)| <= cap
    {
      AddJobActive(s, id, m, user, kind, enqueued, u);
    }
    forall a | a in t.matters && t.matters[a].status == Archived
      ensures Gone(t, a)
    {
      assert Gone(s, a);
      AddJobActive(s, id, m, user, kind, enqueued, a);
    }
  }

  lemma StoreKeepsInv(cap: nat, s: System, o: Object)
    requires Inv(cap, s) && Live(s, o.matterId)
    ensures Inv(cap, s.(objects := s.objects + {o}))
  {
    var t := s.(objects := s.objects + {o});
    forall a | a in t.matters && t.matters[a].status == Archived
      ensures Gone(t, a)
    {
      assert Gone(s, a);
    }
  }

  lemma StatusKeepsInv(cap: nat, s: System, id: nat, status: JobStatus, queue: set<nat>, working: set<nat>)
    requires Inv(cap, s)
    requires id in s.jobs && Active(s.jobs[id])
    requires queue <= s.queue - {id} && working - {id} <= s.working
    requires id in working ==> status == Running
    ensures Inv(cap, s.(jobs := s.jobs[id := s.jobs[id].(status := status)], queue := queue, working := working))
  {
    var t := s.(jobs := s.jobs[id := s.jobs[id].(status := status)], queue := queue, working := working);
    forall u
      ensures |ActiveJobs(t.jobs, u)| <= cap
    {
      SettingStatus(s, id, status, u);
      Sets.SubsetSize(ActiveJobs(t.jobs, u), ActiveJobs(s.jobs, u));
    }
    forall a | a in t.matters && t.matters[a].status == Archived
      ensures Gone(t, a)
    {
      assert Gone(s, a);
      SettingStatus(s, id, status, a);
    }
  }

  lemma FinishKeepsInv(cap: nat, s: System, id: nat, wrote: bool, ok: bool)
    requires Inv(cap, s) && id in s.working
    ensures Inv(cap, Finished(s, id, wrote, ok))
  {
    var j := s.jobs[id];
    StatusKeepsInv(cap, s, id, if ok then Succeeded else Failed, s.queue, s.working - {id});
    if j.kind == Export && (ok || wrote) {
      WorkingMatterIsLive(s, id);
      StoreKeepsInv(cap, Finished(s, id, wrote, ok).(objects := s.objects), Bundle(j.matterId, id));
    }
  }

  lemma LedgerKeepsInv(cap: nat, s: System, ledger: Grants.Ledger, m: nat)
    requires Inv(cap, s) && Live(s, m)
    requires Grants.Sound(ledger)
    requires forall g :: g in ledger.grants ==> g in s.ledger.grants || g.key.scope == Grants.MatterScope(m)
    ensures Inv(cap, s.(ledger := ledger))
  {
    var t := s.(ledger := ledger);
    forall a | a in t.matters && t.matters[a].status == Archived
      ensures Gone(t, a)
    {
      assert Gone(s, a);
    }
  }

  lemma GrantKeepsInv(cap: nat, s: System, user: nat, m: nat, plugin: string, skill: string, d: Grants.Declaration)
    requires Inv(cap, s) && Live(s, m)
    ensures Inv(cap, s.(ledger := Grants.Create(s.ledger, Grants.KeysFor(user, plugin, skill, m, d), m)))
  {
    var keys := Grants.KeysFor(user, plugin, skill, m, d);
    Grants.CreateKeepsSound(s.ledger, keys, m);
    Grants.NewRowsKeys(s.ledger.grants, keys, s.ledger.nextId);
    LedgerKeepsInv(cap, s, Grants.Create(s.ledger, keys, m), m);
  }

  lemma RevokeKeepsInv(cap: nat, s: System, user: nat, m: nat, id: nat)
    requires Inv(cap, s) && Live(s, m)
    ensures Inv(cap, s.(ledger := Grants.Revoke(s.ledger, user, m, id)))
  {
    Grants.RevokeKeepsSound(s.ledger, user, m, id);
    forall g | g in Grants.Revoke(s.ledger, user, m, id).grants
      ensures g in s.ledger.grants
    {
      Grants.RevokeRemovesOnlyThat(s.ledger, user, m, id, g);
    }
    LedgerKeepsInv(cap, s, Grants.Revoke(s.ledger, user, m, id), m);
  }

  lemma TombstoneKeepsInv(cap: nat, s: System, m: nat, purge: Purge)
    requires Inv(cap, s) && Live(s, m)
    ensures Inv(cap, Tombstone(s, m, purge))
  {
    var t := Tombstone(s, m, purge);
    Grants.CascadeKeepsSound(s.ledger, m);
    forall a | a in t.matters && t.matters[a].status == Archived
      ensures Gone(t, a)
    {
      if a != m {
        assert Gone(s, a);
      }
    }
  }

  lemma MatterKeepsInv(cap: nat, s: System, m: nat, matter: Matter)
    requires Inv(cap, s)
    requires matter.status != Archived
    ensures Inv(cap, s.(matters := s.matters[m := matter]))
  {
    var t := s.(matters := s.matters[m := matter]);
    forall a | a in t.matters && t.matters[a].status == Archived
      ensures Gone(t, a)
    {
      assert Gone(s, a);
    }
  }

  lemma NextKeepsInv(cap: nat, s: System, op: Op)
    requires Inv(cap, s)
    ensures Inv(cap, Next(cap, s, op))
  {
    match op
    case CreateMatter(user, m) => MatterKeepsInv(cap, s, m, Matter(user, Open));
    case Upload(user, m, doc, id, stored, enqueued) =>
      if LiveOwned(s, user, m) && id !in s.jobs && stored {
        StoreKeepsInv(cap, s, Uploaded(m, doc));
        AddJobKeepsInv(cap, s.(objects := s.objects + {Uploaded(m, doc)}), id, m, user, Index, enqueued);
      }
    case RequestExport(user, m, id, enqueued) =>
      if LiveOwned(s, user, m) && id !in s.jobs && |ActiveJobs(s.jobs, user)| < cap {
        AddJobKeepsInv(cap, s, id, m, user, Export, enqueued);
      }
    case StartJob(id) =>
      if id in s.queue {
        StatusKeepsInv(cap, s, id, Running, s.queue - {id}, s.working + {id});
      }
    case FinishJob(id, wrote, ok) =>
      if id in s.working {
        FinishKeepsInv(cap, s, id, wrote, ok);
      }
    case Close(user, m) =>
      if LiveOwned(s, user, m) {
        MatterKeepsInv(cap, s, m, s.matters[m].(status := Closed));
      }
    case Grant(user, m, superuser, plugin, skill, d) =>
      if Live(s, m) {
        GrantKeepsInv(cap, s, user, m, plugin, skill, d);
      }
    case RevokeOne(user, m, superuser, id) =>
      if Live(s, m) {
        RevokeKeepsInv(cap, s, user, m, id);
      }
    case Delete(user, m, purge) =>
      if Live(s, m) {
        TombstoneKeepsInv(cap, s, m, purge);
      }
    case Sweep(m, purge) =>
      if Live(s, m) {
        TombstoneKeepsInv(cap, s, m, purge);
      }
  }

  // ---- Every run ----

  const EMPTY := System(map[], map[], {}, Grants.Ledger([], [], 0), {}, {})

  function Run(cap: nat, ops: seq<Op>): System {
    if ops == [] then EMPTY else Next(cap, Run(cap, ops[..|ops| - 1]), ops[|ops| - 1])
  }

  lemma {:induction false} EveryRunKeepsInv(cap: nat, ops: seq<Op>)
    ensures Inv(cap, Run(cap, ops))
  {
    if ops == [] {
      assert forall user :: ActiveJobs(EMPTY.jobs, user) == {};
      Grants.EveryRunSound([]);
    } else {
      EveryRunKeepsInv(cap, ops[..|ops| - 1]);
      NextKeepsInv(cap, Run(cap, ops[..|ops| - 1]), ops[|ops| - 1]);
    }
  }

  /** In every run an archived matter has no stored object, no matter-scoped grant and no active
      interactive job, and no user has more active interactive jobs than the cap. */
  lemma ArchivedStaysEmpty(cap: nat, ops: seq<Op>, m: nat, user: nat)
    requires m in Run(cap, ops).matters && Run(cap, ops).matters[m].status == Archived
    ensures forall o :: o in Run(cap, ops).objects ==> o.matterId != m
    ensures forall g :: g in Run(cap, ops).ledger.grants ==> g.key.scope != Grants.MatterScope(m)
    ensures var jobs := Run(cap, ops).jobs;
            && (forall id :: id in jobs && jobs[id].matterId == m && jobs[id].kind == Export ==>
                             jobs[id].status == Succeeded || jobs[id].status == Failed)
            && |set id | id in jobs && jobs[id].creator == user && jobs[id].kind == Export &&
                         (jobs[id].status == Queued || jobs[id].status == Running)| <= cap
  {
    EveryRunKeepsInv(cap, ops);
    assert Gone(Run(cap, ops), m);
    var jobs := Run(cap, ops).jobs;
    forall id | id in jobs && jobs[id].matterId == m && jobs[id].kind == Export
      ensures jobs[id].status == Succeeded || jobs[id].status == Failed
    {
      assert id !in BlockingJobs(jobs, m);
    }
    ActiveJobsListed(jobs, user);
  }

  /** What counts against the cap, spelled out. */
  lemma ActiveJobsListed(jobs: map<nat, Job>, user: nat)
    ensures ActiveJobs(jobs, user) ==
            set id | id in jobs && jobs[id].creator == user && jobs[id].kind == Export &&
                     (jobs[id].status == Queued || jobs[id].status == Running)
  {
  }

  /** What holds back a deletion, spelled out. */
  lemma BlockingJobsListed(jobs: map<nat, Job>, matterId: nat)
    ensures BlockingJobs(jobs, matterId) ==
            set id | id in jobs && jobs[id].matterId == matterId && jobs[id].kind == Export &&
                     (jobs[id].status == Queued || jobs[id].status == Running)
  {
  }

  /** Archiving is final, ownership fixed, and a job that ended stays as it ended. */
  lemma StepIsForward(cap: nat, s: System, op: Op)
    requires Inv(cap, s)
    ensures forall m :: m in s.matters ==> MatterForward(s, Next(cap, s, op), m)
    ensures forall id :: id in s.jobs ==> JobForward(s, Next(cap, s, op), id)
  {
    forall m | m in s.matters
      ensures MatterForward(s, Next(cap, s, op), m)
    {
      StepMovesMatter(cap, s, op, m);
    }
    forall id | id in s.jobs
      ensures JobForward(s, Next(cap, s, op), id)
    {
      StepMovesJob(cap, s, op, id);
    }
  }

  ghost predicate MatterForward(s: System, t: System, m: nat)
    requires m in s.matters
  {
    && m in t.matters && t.matters[m].owner == s.matters[m].owner
    && (s.matters[m].status == Archived ==> t.matters[m].status == Archived)
  }

  ghost predicate JobForward(s: System, t: System, id: nat)
    requires id in s.jobs
  {
    id in t.jobs && (!Active(s.jobs[id]) ==> t.jobs[id] == s.jobs[id])
  }

  lemma StepMovesMatter(cap: nat, s: System, op: Op, m: nat)
    requires m in s.matters
    ensures MatterForward(s, Next(cap, s, op), m)
  {
  }

  lemma StepMovesJob(cap: nat, s: System, op: Op, id: nat)
    requires QueueOk(s) && id in s.jobs
    ensures JobForward(s, Next(cap, s, op), id)
  {
  }

  lemma RunStep(cap: nat, ops: seq<Op>, op: Op)
    ensures Run(cap, ops + [op]) == Next(cap, Run(cap, ops), op)
  {
    assert (ops + [op])[..|ops|] == ops;
  }

  /** An archived matter stays archived for the rest of every run. */
  lemma {:induction false} ArchivedForever(cap: nat, ops: seq<Op>, more: seq<Op>, m: nat)
    requires m in Run(cap, ops).matters && Run(cap, ops).matters[m].status == Archived
    ensures m in Run(cap, ops + more).matters && Run(cap, ops + more).matters[m].status == Archived
    decreases |more|
  {
    if more == [] {
      assert ops + more == ops;
    } else {
      var front, last := more[..|more| - 1], more[|more| - 1];
      ArchivedForever(cap, ops, front, m);
      StepMovesMatter(cap, Run(cap, ops + front), last, m);
      RunStep(cap, ops + front, last);
      assert ops + front + [last] == ops + more;
    }
  }

  /** A failed purge is not an archive: nothing but the matter's own objects may differ. */
  lemma FailedPurgeLeavesMatterLive(s: System, m: nat, left: set<Object>)
    requires Live(s, m)
    ensures var t := Tombstone(s, m, PurgeFailed(left));
            && t.matters == s.matters && t.jobs == s.jobs && t.ledger == s.ledger
            && t.objects <= s.objects && ObjectsOutside(t.objects, m) == ObjectsOutside(s.objects, m)
  {
  }

  /** What a tombstone does, table by table: nothing while an export is unfinished; nothing but, maybe,
      the loss of objects when the purge fails; otherwise the matter is archived, its objects and its
      grants are gone, and all else is as it was. */
  lemma TombstoneAsPromised(s: System, m: nat, purge: Purge)
    requires m in s.matters
    ensures var t := Tombstone(s, m, purge);
            var busy := exists id :: id in s.jobs && s.jobs[id].matterId == m && s.jobs[id].kind == Export &&
                                     (s.jobs[id].status == Queued || s.jobs[id].status == Running);
            && t.jobs == s.jobs && t.queue == s.queue && t.working == s.working
            && (busy ==> t == s)
            && (busy || purge.PurgeFailed? ==> t.matters == s.matters && t.ledger == s.ledger)
            && (!busy && purge.Purged? ==>
                  && t.matters == s.matters[m := Matter(s.matters[m].owner, Archived)]
                  && forall g :: g in t.ledger.grants <==>
                                 g in s.ledger.grants && !(g.key.scope.MatterScope? && g.key.scope.matterId == m))
            && forall o :: o in t.objects <==>
                           o in s.objects && (o.matterId != m || busy || (purge.PurgeFailed? && o in purge.left))
  {
    BlockingJobsListed(s.jobs, m);
    if exists id :: id in s.jobs && s.jobs[id].matterId == m && s.jobs[id].kind == Export &&
                    (s.jobs[id].status == Queued || s.jobs[id].status == Running)
    {
      var id :| id in s.jobs && s.jobs[id].matterId == m && s.jobs[id].kind == Export &&
                (s.jobs[id].status == Queued || s.jobs[id].status == Running);
      assert id in BlockingJobs(s.jobs, m);
    }
  }

  // ---- Why each job id must be delivered only once ----

  /** The worker's first step on an id delivered again: running, whatever the job was before. */
  function Restarted(s: System, id: nat): System
    requires id in s.jobs
  {
    s.(jobs := s.jobs[id := s.jobs[id].(status := Running)], working := s.working + {id})
  }

  lemma RestartedActive(s: System, id: nat, u: nat)
    requires id in s.jobs && !Active(s.jobs[id])
    ensures ActiveJobs(Restarted(s, id).jobs, u) ==
            ActiveJobs(s.jobs, u) + (if Interactive(s.jobs[id]) && u == s.jobs[id].creator then {id} else {})
    ensures BlockingJobs(Restarted(s, id).jobs, u) ==
            BlockingJobs(s.jobs, u) + (if Interactive(s.jobs[id]) && u == s.jobs[id].matterId then {id} else {})
    ensures id !in ActiveJobs(s.jobs, u) && id !in BlockingJobs(s.jobs, u)
  {
  }

  /** Running an ended job again keeps the invariant exactly when it is a background job, or its
      matter is live and its creator below the cap: what a new export request would be checked for. */
  lemma RestartKeepsInvIff(cap: nat, s: System, id: nat)
    requires Inv(cap, s)
    requires id in s.jobs && !Active(s.jobs[id])
    ensures Inv(cap, Restarted(s, id)) <==>
            || s.jobs[id].kind == Index
            || (Live(s, s.jobs[id].matterId) && |ActiveJobs(s.jobs, s.jobs[id].creator)| < cap)
  {
    var t, j := Restarted(s, id), s.jobs[id];
    RestartedActive(s, id, j.creator);
    RestartedActive(s, id, j.matterId);
    if Interactive(j) && Inv(cap, t) {
      assert |ActiveJobs(t.jobs, j.creator)| <= cap;
      assert t.matters[j.matterId].status == Archived ==> Gone(t, j.matterId);
    } else if !Interactive(j) || (Live(s, j.matterId) && |ActiveJobs(s.jobs, j.creator)| < cap) {
      RestartKeepsInv(cap, s, id);
    }
  }

  lemma RestartKeepsInv(cap: nat, s: System, id: nat)
    requires Inv(cap, s)
    requires id in s.jobs && !Active(s.jobs[id])
    requires Interactive(s.jobs[id]) ==>
               Live(s, s.jobs[id].matterId) && |ActiveJobs(s.jobs, s.jobs[id].creator)| < cap
    ensures Inv(cap, Restarted(s, id))
  {
    var t := Restarted(s, id);
    forall u
      ensures |ActiveJobs(t.jobs, u)| <= cap
    {
      RestartedActive(s, id, u);
    }
    forall a | a in t.matters && t.matters[a].status == Archived
      ensures Gone(t, a)
    {
      assert Gone(s, a);
      RestartedActive(s, id, a);
    }
  }

  lemma RefinishedJobs(s: System, id: nat, wrote: bool, ok: bool, u: nat)
    requires id in s.jobs && !Active(s.jobs[id])
    ensures ActiveJobs(Finished(Restarted(s, id), id, wrote, ok).jobs, u) == ActiveJobs(s.jobs, u)
    ensures BlockingJobs(Finished(Restarted(s, id), id, wrote, ok).jobs, u) == BlockingJobs(s.jobs, u)
  {
  }

  /** When it has ended again the cap holds once more. What is lost for good, and only in an archived
      matter, is that nothing is stored: exactly when the second run wrote its bundle. */
  lemma RefinishKeepsInvIff(cap: nat, s: System, id: nat, wrote: bool, ok: bool)
    requires Inv(cap, s)
    requires id in s.jobs && !Active(s.jobs[id])
    ensures Inv(cap, Finished(Restarted(s, id), id, wrote, ok)) <==>
            s.jobs[id].kind == Index || Live(s, s.jobs[id].matterId) || !(wrote || ok)
  {
    var t, m := Finished(Restarted(s, id), id, wrote, ok), s.jobs[id].matterId;
    if s.jobs[id].kind == Export && !Live(s, m) && (wrote || ok) {
      assert Bundle(m, id) in t.objects;
      assert !Gone(t, m);
    } else {
      forall u
        ensures |ActiveJobs(t.jobs, u)| <= cap
      {
        RefinishedJobs(s, id, wrote, ok, u);
      }
      forall a | a in t.matters && t.matters[a].status == Archived
        ensures Gone(t, a)
      {
        assert Gone(s, a);
        RefinishedJobs(s, id, wrote, ok, a);
      }
    }
  }
}

/** The request handlers and worker steps as they update the tables, each against the step of the
    lifecycle it implements, and the audit rows they write about jobs and matters. */
module LifecycleService {
  import opened Options
  import opened Lifecycle
  import Grants

  datatype DeleteError = NotFound | HasActiveJobs(count: nat) | StorageDeleteFailed

  datatype TombstoneResult = TombstoneResult(exportCount: nat, hadExport: bool, grantsRevoked: nat)

  datatype MatterEvent = Opened | ClosedOnce | Erased(action: string, exportCount: nat) | DeletedWithoutExport

  datatype AuditRow = JobLogged(jobId: nat, status: JobStatus) | MatterLogged(matterId: nat, event: MatterEvent)

  /** How a handler answers. */
  datatype Reply = Accepted | NoSuchMatter | LimitReached | StorageFailed | EnqueueFailed | IsArchived | Unprocessable | NoSuchGrant

  function SucceededExports(jobs: map<nat, Job>, m: nat): set<nat> {
    set id | id in jobs && jobs[id].matterId == m && jobs[id].kind == Export && jobs[id].status == Succeeded
  }

  lemma SucceededListed(jobs: map<nat, Job>, m: nat)
    ensures SucceededExports(jobs, m) ==
            set id | id in jobs && jobs[id].matterId == m && jobs[id].kind == Export && jobs[id].status == Succeeded
  {
  }

  // ---- The audit trail of a job ----

  /** The statuses logged for one job, in order. */
  function Trail(audits: seq<AuditRow>, id: nat): seq<JobStatus> {
    if audits == [] then []
    else
      var front, last := Trail(audits[..|audits| - 1], id), audits[|audits| - 1];
      if last.JobLogged? && last.jobId == id then front + [last.status] else front
  }

  lemma TrailAppend(audits: seq<AuditRow>, row: AuditRow, id: nat)
    ensures Trail(audits + [row], id) ==
            Trail(audits, id) + (if row.JobLogged? && row.jobId == id then [row.status] else [])
  {
    assert (audits + [row])[..|audits|] == audits;
    assert Trail(audits, id) + [] == Trail(audits, id);
  }

  /** A job is queued, then started unless it never could be, then ended once. */
  predicate LifeOf(trail: seq<JobStatus>, job: Option<Job>) {
    match job
    case None => trail == []
    case Some(j) =>
      match j.status
      case Queued => trail == [Queued]
      case Running => trail == [Queued, Running]
      case Succeeded => trail == [Queued, Running, Succeeded]
      case Failed => trail == [Queued, Failed] || trail == [Queued, Running, Failed]
  }

  function JobAt(jobs: map<nat, Job>, id: nat): Option<Job> {
    if id in jobs then Some(jobs[id]) else None
  }

  ghost predicate LifeAt(audits: seq<AuditRow>, jobs: map<nat, Job>, id: nat) {
    LifeOf(Trail(audits, id), JobAt(jobs, id))
  }

  /** The audit log tells the whole life of every job, and of no other. */
  ghost predicate JobsTraced(audits: seq<AuditRow>, jobs: map<nat, Job>) {
    forall id :: LifeAt(audits, jobs, id)
  }

  /** A job may move from one status to another along its life. */
  predicate Moves(from: Option<Job>, to: Job) {
    match from
    case None => to.status == Queued
    case Some(j) =>
      || (j.status == Queued && (to.status == Running || to.status == Failed))
      || (j.status == Running && (to.status == Succeeded || to.status == Failed))
  }

  lemma LoggedMove(audits: seq<AuditRow>, jobs: map<nat, Job>, id: nat, j: Job)
    requires JobsTraced(audits, jobs)
    requires Moves(JobAt(jobs, id), j)
    ensures JobsTraced(audits + [JobLogged(id, j.status)], jobs[id := j])
  {
    var audits', jobs' := audits + [JobLogged(id, j.status)], jobs[id := j];
    forall x
      ensures LifeAt(audits', jobs', x)
    {
      TrailAppend(audits, JobLogged(id, j.status), x);
      assert LifeAt(audits, jobs, x);
    }
  }

  lemma MatterRowKeepsJobs(audits: seq<AuditRow>, jobs: map<nat, Job>, m: nat, e: MatterEvent)
    requires JobsTraced(audits, jobs)
    ensures JobsTraced(audits + [MatterLogged(m, e)], jobs)
  {
    forall x
      ensures LifeAt(audits + [MatterLogged(m, e)], jobs, x)
    {
      TrailAppend(audits, MatterLogged(m, e), x);
      assert LifeAt(audits, jobs, x);
    }
  }

  // ---- The audit trail of a matter ----

  /** The events logged for one matter, in order. */
  function MatterTrail(audits: seq<AuditRow>, m: nat): seq<MatterEvent> {
    if audits == [] then []
    else
      var front, last := MatterTrail(audits[..|audits| - 1], m), audits[|audits| - 1];
      if last.MatterLogged? && last.matterId == m then front + [last.event] else front
  }

  lemma MatterTrailAppend(audits: seq<AuditRow>, row: AuditRow, m: nat)
    ensures MatterTrail(audits + [row], m) ==
            MatterTrail(audits, m) + (if row.MatterLogged? && row.matterId == m then [row.event] else [])
  {
    assert (audits + [row])[..|audits|] == audits;
    assert MatterTrail(audits, m) + [] == MatterTrail(audits, m);
  }

  /** A matter is opened, closed at most once, and purged at most once; the warning that it was deleted
      without an export follows only when there was none. */
  predicate MatterLifeOf(trail: seq<MatterEvent>, matter: Option<Matter>) {
    match matter
    case None => trail == []
    case Some(x) =>
      match x.status
      case Open => trail == [Opened]
      case Closed => trail == [Opened, ClosedOnce]
      case Archived => PurgedAfter(trail, [Opened]) || PurgedAfter(trail, [Opened, ClosedOnce])
  }

  predicate PurgedAfter(trail: seq<MatterEvent>, life: seq<MatterEvent>) {
    var n := |life|;
    && |trail| > n && trail[..n] == life && trail[n].Erased?
    && (|trail| == n + 1 || (trail[n..] == [trail[n], DeletedWithoutExport] && trail[n].exportCount == 0))
  }

  function MatterAt(matters: map<nat, Matter>, m: nat): Option<Matter> {
    if m in matters then Some(matters[m]) else None
  }

  ghost predicate MatterLifeAt(audits: seq<AuditRow>, matters: map<nat, Matter>, m: nat) {
    MatterLifeOf(MatterTrail(audits, m), MatterAt(matters, m))
  }

  /** The audit log tells the whole life of every matter, and of no other. */
  ghost predicate MattersTraced(audits: seq<AuditRow>, matters: map<nat, Matter>) {
    forall m :: MatterLifeAt(audits, matters, m)
  }

  lemma JobRowKeepsMatters(audits: seq<AuditRow>, matters: map<nat, Matter>, id: nat, status: JobStatus)
    requires MattersTraced(audits, matters)
    ensures MattersTraced(audits + [JobLogged(id, status)], matters)
  {
    forall x
      ensures MatterLifeAt(audits + [JobLogged(id, status)], matters, x)
    {
      MatterTrailAppend(audits, JobLogged(id, status), x);
      assert MatterLifeAt(audits, matters, x);
    }
  }

  /** Opening or closing a matter, logged. */
  lemma LoggedChange(audits: seq<AuditRow>, matters: map<nat, Matter>, m: nat, matter: Matter, e: MatterEvent)
    requires MattersTraced(audits, matters)
    requires || (m !in matters && matter.status == Open && e == Opened)
             || (m in matters && matters[m].status == Open && matter.status == Closed && e == ClosedOnce)
    ensures MattersTraced(audits + [MatterLogged(m, e)], matters[m := matter])
  {
    var audits', matters' := audits + [MatterLogged(m, e)], matters[m := matter];
    forall x
      ensures MatterLifeAt(audits', matters', x)
    {
      MatterTrailAppend(audits, MatterLogged(m, e), x);
      assert MatterLifeAt(audits, matters, x);
    }
  }

  /** Purging one, logged with its warning where that is due. */
  lemma LoggedPurge(audits: seq<AuditRow>, matters: map<nat, Matter>, m: nat, action: string, n: nat, warned: bool)
    requires MattersTraced(audits, matters)
    requires m in matters && matters[m].status != Archived
    requires warned ==> n == 0
    ensures MattersTraced(audits + [MatterLogged(m, Erased(action, n))] +
                          (if warned then [MatterLogged(m, DeletedWithoutExport)] else []),
                          matters[m := matters[m].(status := Archived)])
  {
    var purged, warning := MatterLogged(m, Erased(action, n)), MatterLogged(m, DeletedWithoutExport);
    var audits' := audits + [purged] + (if warned then [warning] else []);
    var matters' := matters[m := matters[m].(status := Archived)];
    assert !warned ==> audits' == audits + [purged];
    forall x
      ensures MatterLifeAt(audits', matters', x)
    {
      MatterTrailAppend(audits, purged, x);
      MatterTrailAppend(audits + [purged], warning, x);
      assert MatterLifeAt(audits, matters, x);
      if x == m {
        PurgeEndsLife(MatterTrail(audits, m), matters[m], action, n, warned);
      }
    }
  }

  lemma PurgeEndsLife(trail: seq<MatterEvent>, matter: Matter, action: string, n: nat, warned: bool)
    requires MatterLifeOf(trail, Some(matter)) && matter.status != Archived
    requires warned ==> n == 0
    ensures MatterLifeOf(trail + [Erased(action, n)] + (if warned then [DeletedWithoutExport] else []),
                         Some(matter.(status := Archived)))
  {
    var t := trail + [Erased(action, n)] + (if warned then [DeletedWithoutExport] else []);
    assert t[..|trail|] == trail;
    assert PurgedAfter(t, trail);
  }

  // ---- The handlers ----

  class Service {
    const cap: nat
    const grants: Grants.GrantTable
    var matters: map<nat, Matter>
    var jobs: map<nat, Job>
    var objects: set<Object>
    var queue: set<nat>
    var working: set<nat>
    var audits: seq<AuditRow>

    function State(): System
      reads this, grants
    {
      System(matters, jobs, objects, grants.State(), queue, working)
    }

    /** The lifecycle invariant, and an audit log that tells every job's and every matter's life. */
    ghost predicate Valid()
      reads this, grants
    {
      Inv(cap, State()) && JobsTraced(audits, jobs) && MattersTraced(audits, matters)
    }

    constructor (cap: nat)
      ensures Valid() && this.cap == cap && State() == Run(cap, []) && fresh(grants) && audits == []
    {
      this.cap := cap;
      grants := new Grants.GrantTable();
      matters, jobs, objects, queue, working, audits := map[], map[], {}, {}, {}, [];
      new;
      EveryRunKeepsInv(cap, []);
      assert forall id :: LifeAt(audits, jobs, id);
      assert forall m :: MatterLifeAt(audits, matters, m);
    }

    // ---- jobs.py ----

    /** Inserts and logs a queued row unless the user is at the cap; index jobs are never held back. */
    method CreateJob(id: nat, m: nat, user: nat, kind: JobKind) returns (created: bool)
      requires id !in jobs && JobsTraced(audits, jobs) && MattersTraced(audits, matters)
      modifies this
      ensures created <==> kind == Index || |ActiveJobs(old(jobs), user)| < cap
      ensures matters == old(matters) && objects == old(objects) && queue == old(queue) && working == old(working)
      ensures jobs == if created then old(jobs)[id := Job(m, user, kind, Queued)] else old(jobs)
      ensures JobsTraced(audits, jobs) && MattersTraced(audits, matters)
      ensures audits == if created then old(audits) + [JobLogged(id, Queued)] else old(audits)
      ensures created ==> Trail(audits, id) == [Queued]
    {
      assert LifeAt(audits, jobs, id);
      TrailAppend(audits, JobLogged(id, Queued), id);
      if kind == Export {
        var active := |ActiveJobs(jobs, user)|;
        if active >= cap {
          return false;
        }
      }
      LoggedMove(audits, jobs, id, Job(m, user, kind, Queued));
      JobRowKeepsMatters(audits, matters, id, Queued);
      jobs := jobs[id := Job(m, user, kind, Queued)];
      audits := audits + [JobLogged(id, Queued)];
      created := true;
    }

    method UpdateStatus(id: nat, status: JobStatus)
      requires id in jobs && JobsTraced(audits, jobs) && MattersTraced(audits, matters)
      requires Moves(Some(jobs[id]), jobs[id].(status := status))
      modifies this
      ensures matters == old(matters) && objects == old(objects) && queue == old(queue) && working == old(working)
      ensures jobs == old(jobs)[id := old(jobs)[id].(status := status)]
      ensures JobsTraced(audits, jobs) && MattersTraced(audits, matters)
      ensures audits == old(audits) + [JobLogged(id, status)]
    {
      LoggedMove(audits, jobs, id, jobs[id].(status := status));
      JobRowKeepsMatters(audits, matters, id, status);
      jobs := jobs[id := jobs[id].(status := status)];
      audits := audits + [JobLogged(id, status)];
    }

    /** Hands the id to the queue; when the queue is down the job is failed, not left queued. */
    method EnqueueOrMarkFailed(id: nat, up: bool) returns (reply: Reply)
      requires id in jobs && jobs[id].status == Queued && JobsTraced(audits, jobs) && MattersTraced(audits, matters)
      modifies this
      ensures reply == if up then Accepted else EnqueueFailed
      ensures matters == old(matters) && objects == old(objects) && working == old(working)
      ensures queue == if up then old(queue) + {id} else old(queue)
      ensures jobs == if up then old(jobs) else old(jobs)[id := old(jobs)[id].(status := Failed)]
      ensures JobsTraced(audits, jobs) && MattersTraced(audits, matters)
      ensures audits == if up then old(audits) else old(audits) + [JobLogged(id, Failed)]
      ensures Trail(audits, id) == if up then [Queued] else [Queued, Failed]
    {
      assert LifeAt(audits, jobs, id);
      TrailAppend(audits, JobLogged(id, Failed), id);
      if up {
        queue := queue + {id};
        reply := Accepted;
      } else {
        UpdateStatus(id, Failed);
        reply := EnqueueFailed;
      }
    }

    /** Create the row, then enqueue it. */
    method SubmitJob(id: nat, m: nat, user: nat, kind: JobKind, enqueued: bool) returns (reply: Reply)
      requires id !in jobs && JobsTraced(audits, jobs) && MattersTraced(audits, matters)
      modifies this
      ensures reply == if kind == Export && |ActiveJobs(old(jobs), user)| >= cap then LimitReached
                       else if enqueued then Accepted else EnqueueFailed
      ensures matters == old(matters) && objects == old(objects) && working == old(working)
      ensures jobs == if reply == LimitReached then old(jobs)
                      else old(jobs)[id := Job(m, user, kind, if enqueued then Queued else Failed)]
      ensures queue == if reply == Accepted then old(queue) + {id} else old(queue)
      ensures JobsTraced(audits, jobs) && MattersTraced(audits, matters)
      ensures reply != LimitReached ==> Trail(audits, id) == if enqueued then [Queued] else [Queued, Failed]
    {
      var created := CreateJob(id, m, user, kind);
      if !created {
        return LimitReached;
      }
      reply := EnqueueOrMarkFailed(id, enqueued);
    }

    // ---- matters.py and exports.py ----

    method OpenMatter(user: nat, m: nat)
      requires Valid() && m !in matters
      modifies this
      ensures Valid() && State() == Next(cap, old(State()), CreateMatter(user, m))
      ensures matters == old(matters)[m := Matter(user, Open)]
      ensures jobs == old(jobs) && objects == old(objects) && queue == old(queue) && working == old(working)
      ensures audits == old(audits) + [MatterLogged(m, Opened)]
    {
      NextKeepsInv(cap, State(), CreateMatter(user, m));
      MatterRowKeepsJobs(audits, jobs, m, Opened);
      LoggedChange(audits, matters, m, Matter(user, Open), Opened);
      matters := matters[m := Matter(user, Open)];
      audits := audits + [MatterLogged(m, Opened)];
    }

    /** A document whose index job could not be enqueued stays uploaded all the same. */
    method UploadDocument(user: nat, m: nat, documentId: nat, jobId: nat, stored: bool, enqueued: bool) returns (reply: Reply)
      requires Valid() && jobId !in jobs
      modifies this
      ensures Valid() && State() == Next(cap, old(State()), Upload(user, m, documentId, jobId, stored, enqueued))
      ensures reply == NoSuchMatter <==> m !in old(matters) || old(matters)[m].owner != user || old(matters)[m].status == Archived
      ensures reply != NoSuchMatter ==> reply == if !stored then StorageFailed else if enqueued then Accepted else EnqueueFailed
      ensures matters == old(matters) && working == old(working)
      ensures reply == NoSuchMatter || reply == StorageFailed ==>
                jobs == old(jobs) && objects == old(objects) && queue == old(queue) && audits == old(audits)
      ensures reply == Accepted || reply == EnqueueFailed ==>
                && objects == old(objects) + {Uploaded(m, documentId)}
                && jobs == old(jobs)[jobId := Job(m, user, Index, if enqueued then Queued else Failed)]
                && queue == (if enqueued then old(queue) + {jobId} else old(queue))
                && Trail(audits, jobId) == if enqueued then [Queued] else [Queued, Failed]
    {
      NextKeepsInv(cap, State(), Upload(user, m, documentId, jobId, stored, enqueued));
      if m !in matters || matters[m].status == Archived || matters[m].owner != user {
        return NoSuchMatter;
      }
      if !stored {
        return StorageFailed;
      }
      objects := objects + {Uploaded(m, documentId)};
      reply := SubmitJob(jobId, m, user, Index, enqueued);
    }

    /** A queue that is down costs the user nothing: the failed job does not count against the cap. */
    method CreateExportJob(user: nat, m: nat, jobId: nat, enqueued: bool) returns (reply: Reply)
      requires Valid() && jobId !in jobs
      modifies this
      ensures Valid() && State() == Next(cap, old(State()), RequestExport(user, m, jobId, enqueued))
      ensures reply == NoSuchMatter <==> m !in old(matters) || old(matters)[m].owner != user || old(matters)[m].status == Archived
      ensures reply == LimitReached <==>
              && reply != NoSuchMatter
              && |set id | id in old(jobs) && old(jobs)[id].creator == user && old(jobs)[id].kind == Export &&
                           (old(jobs)[id].status == Queued || old(jobs)[id].status == Running)| >= cap
      ensures reply != NoSuchMatter && reply != LimitReached ==> reply == if enqueued then Accepted else EnqueueFailed
      ensures matters == old(matters) && objects == old(objects) && working == old(working)
      ensures reply == NoSuchMatter || reply == LimitReached ==> jobs == old(jobs) && queue == old(queue)
      ensures reply == Accepted || reply == EnqueueFailed ==>
                && jobs == old(jobs)[jobId := Job(m, user, Export, if enqueued then Queued else Failed)]
                && queue == (if enqueued then old(queue) + {jobId} else old(queue))
                && Trail(audits, jobId) == if enqueued then [Queued] else [Queued, Failed]
      ensures reply == EnqueueFailed ==> ActiveJobs(jobs, user) == ActiveJobs(old(jobs), user)
    {
      NextKeepsInv(cap, State(), RequestExport(user, m, jobId, enqueued));
      AddJobActive(State(), jobId, m, user, Export, enqueued, user);
      ActiveJobsListed(jobs, user);
      if m !in matters || matters[m].status == Archived || matters[m].owner != user {
        return NoSuchMatter;
      }
      reply := SubmitJob(jobId, m, user, Export, enqueued);
    }

    /** Closing is one way and logged once: closing again changes nothing and writes nothing. */
    method CloseMatter(user: nat, m: nat) returns (reply: Reply)
      requires Valid()
      modifies this
      ensures Valid() && State() == Next(cap, old(State()), Close(user, m))
      ensures reply == NoSuchMatter <==> m !in old(matters) || old(matters)[m].owner != user
      ensures reply == IsArchived <==> reply != NoSuchMatter && old(matters)[m].status == Archived
      ensures reply == Accepted || reply == NoSuchMatter || reply == IsArchived
      ensures matters == if reply == Accepted then old(matters)[m := Matter(user, Closed)] else old(matters)
      ensures jobs == old(jobs) && objects == old(objects) && queue == old(queue) && working == old(working)
      ensures grants.State() == old(grants.State())
      ensures audits == if reply == Accepted && old(matters)[m].status == Open then old(audits) + [MatterLogged(m, ClosedOnce)]
                        else old(audits)
      ensures reply == Accepted ==> MatterTrail(audits, m) == [Opened, ClosedOnce]
    {
      NextKeepsInv(cap, State(), Close(user, m));
      assert MatterLifeAt(audits, matters, m);
      if m !in matters || matters[m].owner != user {
        return NoSuchMatter;
      }
      if matters[m].status == Archived {
        return IsArchived;
      }
      if matters[m].status == Closed {
        assert matters[m := Matter(user, Closed)] == matters;
        return Accepted;
      }
      MatterRowKeepsJobs(audits, jobs, m, ClosedOnce);
      LoggedChange(audits, matters, m, matters[m].(status := Closed), ClosedOnce);
      MatterTrailAppend(audits, MatterLogged(m, ClosedOnce), m);
      matters := matters[m := matters[m].(status := Closed)];
      audits := audits + [MatterLogged(m, ClosedOnce)];
      reply := Accepted;
    }

    // ---- grants.py ----

    /** Granting needs a live matter of the caller's, or any live one for a superuser. */
    method GrantCapability(user: nat, m: nat, superuser: bool, plugin: string, skill: string,
                           declared: Option<Grants.Declaration>)
      returns (reply: Reply)
      requires Valid()
      modifies grants
      ensures Valid()
      ensures declared.Some? ==> State() == Next(cap, old(State()), Grant(user, m, superuser, plugin, skill, declared.value))
      ensures reply == NoSuchMatter <==> m !in matters || matters[m].status == Archived || (matters[m].owner != user && !superuser)
      ensures reply == Unprocessable <==> reply != NoSuchMatter && (declared.None? || declared.value.scope != "matter")
      ensures reply == Accepted || grants.State() == old(grants.State())
      ensures reply == Accepted ==>
                && (forall g :: g in old(grants.grants) ==> g in grants.grants)
                && (forall key :: Grants.Grantable(user, plugin, skill, m, declared.value, key) ==>
                                  exists g :: g in grants.grants && g.key == key)
                && (forall g :: g in grants.grants && g !in old(grants.grants) ==>
                                Grants.Grantable(user, plugin, skill, m, declared.value, g.key))
    {
      if declared.Some? {
        NextKeepsInv(cap, State(), Grant(user, m, superuser, plugin, skill, declared.value));
      }
      if m !in matters || matters[m].status == Archived || (matters[m].owner != user && !superuser) {
        return NoSuchMatter;
      }
      var result := grants.CreateForCapability(user, plugin, skill, m, declared);
      reply := if result.Ok? then Accepted else Unprocessable;
    }

    method RevokeGrant(user: nat, m: nat, superuser: bool, id: nat) returns (reply: Reply)
      requires Valid()
      modifies grants
      ensures Valid() && State() == Next(cap, old(State()), RevokeOne(user, m, superuser, id))
      ensures reply == NoSuchMatter <==> m !in matters || matters[m].status == Archived || (matters[m].owner != user && !superuser)
      ensures reply == NoSuchGrant <==>
              reply != NoSuchMatter && !exists g :: g in old(grants.grants) && Grants.IsOwn(g, user, m, id)
      ensures reply == Accepted ==> forall g :: g in grants.grants <==> g in old(grants.grants) && g.id != id
      ensures reply == Accepted || grants.State() == old(grants.State())
    {
      NextKeepsInv(cap, State(), RevokeOne(user, m, superuser, id));
      if m !in matters || matters[m].status == Archived || (matters[m].owner != user && !superuser) {
        return NoSuchMatter;
      }
      var row := grants.RevokeGrant(user, m, id);
      reply := if row.Some? then Accepted else NoSuchGrant;
    }

    // ---- worker.py ----

    /** The worker takes an id off the queue and marks the job running, without checking its status.
        A row it cannot see makes it raise, and the id stays queued for a retry; a job whose matter is
        missing fails. */
    method StartDelivered(id: nat) returns (visible: bool)
      requires JobsTraced(audits, jobs) && MattersTraced(audits, matters)
      requires id in queue && (id in jobs ==> jobs[id].status == Queued)
      modifies this
      ensures State() == Next(cap, old(State()), StartJob(id)) && JobsTraced(audits, jobs) && MattersTraced(audits, matters)
      ensures old(Valid()) ==> Valid()
      ensures visible <==> id in old(jobs)
      ensures matters == old(matters) && objects == old(objects)
      ensures !visible ==> jobs == old(jobs) && queue == old(queue) && working == old(working)
      ensures visible ==>
                var found := old(jobs)[id].matterId in matters;
                && jobs == old(jobs)[id := old(jobs)[id].(status := if found then Running else Failed)]
                && queue == old(queue) - {id}
                && working == (if found then old(working) + {id} else old(working))
                && Trail(audits, id) == [Queued, if found then Running else Failed]
    {
      if Valid() {
        NextKeepsInv(cap, State(), StartJob(id));
      }
      assert LifeAt(audits, jobs, id);
      TrailAppend(audits, JobLogged(id, Running), id);
      TrailAppend(audits, JobLogged(id, Failed), id);
      if id !in jobs {
        return false;
      }
      queue := queue - {id};
      if jobs[id].matterId !in matters {
        UpdateStatus(id, Failed);
        return true;
      }
      working := working + {id};
      UpdateStatus(id, Running);
      visible := true;
    }

    /** The pipeline ends; `wrote` says whether an export that failed had stored its bundle already. */
    method FinishRunning(id: nat, wrote: bool, ok: bool)
      requires Valid() && id in working
      modifies this
      ensures Valid() && State() == Next(cap, old(State()), FinishJob(id, wrote, ok))
      ensures matters == old(matters) && queue == old(queue) && working == old(working) - {id}
      ensures id in old(jobs) && jobs == old(jobs)[id := old(jobs)[id].(status := if ok then Succeeded else Failed)]
      ensures objects == if jobs[id].kind == Export && (ok || wrote) then old(objects) + {Bundle(jobs[id].matterId, id)}
                         else old(objects)
      ensures Trail(audits, id) == [Queued, Running, if ok then Succeeded else Failed]
    {
      NextKeepsInv(cap, State(), FinishJob(id, wrote, ok));
      assert LifeAt(audits, jobs, id);
      TrailAppend(audits, JobLogged(id, if ok then Succeeded else Failed), id);
      if jobs[id].kind == Export && (ok || wrote) {
        objects := objects + {Bundle(jobs[id].matterId, id)};
      }
      working := working - {id};
      UpdateStatus(id, if ok then Succeeded else Failed);
    }

    // ---- matter_lifecycle.py ----

    /** Gate on active jobs, purge storage, record the deletion, archive, revoke the matter's grants. */
    method TombstoneMatter(m: nat, purge: Purge, action: string, warn: bool)
      returns (result: Result<TombstoneResult, DeleteError>)
      requires Valid() && m in matters && matters[m].status != Archived
      modifies this, grants
      ensures Valid() && State() == Tombstone(old(State()), m, purge)
      ensures result.Ok? || result.error.HasActiveJobs? || result.error == StorageDeleteFailed
      ensures result.Err? && result.error.HasActiveJobs? <==> BlockingJobs(old(jobs), m) != {}
      ensures result.Err? && result.error.HasActiveJobs? ==> result.error.count == |BlockingJobs(old(jobs), m)|
      ensures result == Err(StorageDeleteFailed) ==> purge.PurgeFailed?
      ensures result.Ok? ==> purge.Purged?
      ensures result.Ok? ==>
                var n := |set id | id in old(jobs) && old(jobs)[id].matterId == m && old(jobs)[id].kind == Export &&
                                   old(jobs)[id].status == Succeeded|;
                && result.value.exportCount == n && result.value.hadExport == (n > 0)
                && audits == old(audits) + [MatterLogged(m, Erased(action, n))] +
                             (if warn && n == 0 then [MatterLogged(m, DeletedWithoutExport)] else [])
      ensures result.Ok? ==> |old(grants.grants)| == |grants.grants| + result.value.grantsRevoked
      ensures result.Err? ==> audits == old(audits)
    {
      TombstoneKeepsInv(cap, State(), m, purge);
      var active := |BlockingJobs(jobs, m)|;
      if active > 0 {
        return Err(HasActiveJobs(active));
      }
      if purge.PurgeFailed? {
        objects := ObjectsOutside(objects, m) + objects * purge.left;
        return Err(StorageDeleteFailed);
      }
      objects := ObjectsOutside(objects, m);
      SucceededListed(jobs, m);
      var exportCount, revoked := ArchiveMatter(m, action, warn);
      result := Ok(TombstoneResult(exportCount, exportCount > 0, revoked));
    }

    /** The rest of a tombstone, once the storage is purged. */
    method ArchiveMatter(m: nat, action: string, warn: bool) returns (exportCount: nat, revoked: nat)
      requires JobsTraced(audits, jobs) && MattersTraced(audits, matters)
      requires m in matters && matters[m].status != Archived
      modifies this, grants
      ensures State() == old(State()).(matters := old(matters)[m := old(matters)[m].(status := Archived)],
                                       ledger := Grants.Cascade(old(grants.State()), m))
      ensures JobsTraced(audits, jobs) && MattersTraced(audits, matters)
      ensures exportCount == |SucceededExports(old(jobs), m)|
      ensures audits == old(audits) + [MatterLogged(m, Erased(action, exportCount))] +
                        (if warn && exportCount == 0 then [MatterLogged(m, DeletedWithoutExport)] else [])
      ensures |old(grants.grants)| == |grants.grants| + revoked
    {
      exportCount := |SucceededExports(jobs, m)|;
      LogPurge(m, action, exportCount, warn);
      matters := matters[m := matters[m].(status := Archived)];
      Grants.ScopeSplits(grants.grants, Grants.MatterScope(m));
      revoked := grants.RevokeAllOf(m);
    }

    method LogPurge(m: nat, action: string, exportCount: nat, warn: bool)
      requires JobsTraced(audits, jobs) && MattersTraced(audits, matters)
      requires m in matters && matters[m].status != Archived
      modifies this
      ensures State() == old(State()) && JobsTraced(audits, jobs)
      ensures MattersTraced(audits, matters[m := matters[m].(status := Archived)])
      ensures audits == old(audits) + [MatterLogged(m, Erased(action, exportCount))] +
                        (if warn && exportCount == 0 then [MatterLogged(m, DeletedWithoutExport)] else [])
    {
      LoggedPurge(audits, matters, m, action, exportCount, warn && exportCount == 0);
      MatterRowKeepsJobs(audits, jobs, m, Erased(action, exportCount));
      audits := audits + [MatterLogged(m, Erased(action, exportCount))];
      if warn && exportCount == 0 {
        MatterRowKeepsJobs(audits, jobs, m, DeletedWithoutExport);
        audits := audits + [MatterLogged(m, DeletedWithoutExport)];
      } else {
        assert audits + [] == audits;
      }
    }

    method DeleteMatter(user: nat, m: nat, purge: Purge) returns (result: Result<TombstoneResult, DeleteError>)
      requires Valid()
      modifies this, grants
      ensures Valid() && State() == Next(cap, old(State()), Delete(user, m, purge))
      ensures result == Err(NotFound) <==> m !in old(matters) || old(matters)[m].owner != user || old(matters)[m].status == Archived
      ensures result.Ok? ==>
                && matters == old(matters)[m := Matter(user, Archived)]
                && audits == old(audits) + [MatterLogged(m, Erased("matter.deleted", result.value.exportCount))] +
                             (if result.value.exportCount == 0 then [MatterLogged(m, DeletedWithoutExport)] else [])
      ensures result.Err? ==> audits == old(audits) && matters == old(matters)
    {
      if m !in matters || matters[m].owner != user || matters[m].status == Archived {
        return Err(NotFound);
      }
      TombstoneAsPromised(State(), m, purge);
      result := TombstoneMatter(m, purge, "matter.deleted", true);
    }

    /** The retention sweep on one lapsed matter. */
    method SweepMatter(m: nat, purge: Purge) returns (result: Result<TombstoneResult, DeleteError>)
      requires Valid() && m in matters && matters[m].status != Archived
      modifies this, grants
      ensures Valid() && State() == Next(cap, old(State()), Sweep(m, purge))
      ensures result.Ok? ==>
                && matters == old(matters)[m := Matter(old(matters)[m].owner, Archived)]
                && |audits| > |old(audits)| && audits[|old(audits)|] ==
                   MatterLogged(m, Erased("matter.retention.purged", result.value.exportCount))
      ensures result.Err? ==> audits == old(audits) && matters == old(matters)
    {
      TombstoneAsPromised(State(), m, purge);
      result := TombstoneMatter(m, purge, "matter.retention.purged", true);
    }
  }
}

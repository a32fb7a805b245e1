/**
 * The database as a mutable store: every operation of the core that saves
 * rows is a method here that reassigns `db`. `nextId` is the primary key the
 * next saved row gets; one counter serves all tables.
 */
module Store {
  import opened Wrappers
  import opened Schema
  import JobInfo
  import Validation
  import Lifecycle
  import Published
  import opened Creation

  /** Filling the caches of a job's bindings keeps the database consistent and its ids. */
  lemma FillCachesValid(db: Db, job: nat, next: nat)
    requires WellFormed(db) && IdsBelow(db, next)
    ensures var db' := db.(validations := Validation.FillCaches(db, job));
            WellFormed(db') && IdsBelow(db', next)
  {
    Validation.FillCachesKeepsResults(db, job);
    var filled := Validation.FillCaches(db, job);
    forall v | v in filled ensures v.id < next {
      var k :| 0 <= k < |filled| && filled[k] == v;
      assert db.validations[k] in db.validations;
    }
  }

  class Store {
    var db: Db
    var nextId: nat

    /** The rows are consistent and every id in use is below `nextId`. */
    ghost predicate Valid()
      reads this
    {
      WellFormed(db) && IdsBelow(db, nextId)
    }

    constructor (initial: Db, next: nat)
      requires WellFormed(initial) && IdsBelow(initial, next)
      ensures db == initial && nextId == next && Valid()
    {
      db := initial;
      nextId := next;
    }

    /** `Job.refresh_from_livy()`, given the reply to the statement query. */
    method RefreshJobFromLivy(id: nat, reply: Lifecycle.Reply)
      requires Valid() && id in db.jobs
      modifies this
      ensures db == old(db).(jobs := old(db).jobs[id := Lifecycle.Poll(old(db).jobs[id], reply)])
      ensures nextId == old(nextId) && Valid()
    {
      var j := Lifecycle.Poll(db.jobs[id], reply);
      db := db.(jobs := db.jobs[id := j]);
    }

    /**
     * `Job.update_status()`, given the reply a poll would get and the current
     * time; the record count comes from the job's record rows and the elapsed
     * time from its track.
     */
    method UpdateJobStatus(id: nat, reply: Lifecycle.Reply, now: int)
      requires Valid() && id in db.jobs
      modifies this
      ensures var j := old(db).jobs[id];
              db == old(db).(jobs := old(db).jobs[id := Lifecycle.UpdateStatus(j, reply, RecordCountOf(old(db).records, id),
                                                                             JobInfo.TrackOf(old(db).tracks, id), now)])
      ensures nextId == old(nextId) && Valid()
    {
      var j := db.jobs[id];
      if !j.deleted {
        j := Lifecycle.UpdateStatus(j, reply, RecordCountOf(db.records, id), JobInfo.TrackOf(db.tracks, id), now);
        db := db.(jobs := db.jobs[id := j]);
      }
    }

    /** `LivySession.refresh_from_livy()` on the session in row `i`. */
    method RefreshSessionFromLivy(i: nat, reply: Lifecycle.SessionReply)
      requires Valid() && i < |db.sessions|
      modifies this
      ensures db == old(db).(sessions := old(db).sessions[i := Lifecycle.RefreshSession(old(db).sessions[i], reply)])
      ensures nextId == old(nextId) && Valid()
    {
      db := db.(sessions := db.sessions[i := Lifecycle.RefreshSession(db.sessions[i], reply)]);
    }

    /**
     * `CombineJob._get_active_livy_session()`, which `CombineJob.__init__`
     * runs first; `statusReply` is the service's reply to the status query of
     * the single active session, if one was sent.
     */
    method ActiveSession(statusReply: Option<Lifecycle.SessionReply>) returns (session: Option<LivySession>)
      ensures session == Lifecycle.ActiveLivySession(db.sessions, statusReply)
      ensures session.Some? ==> session.value in db.sessions && session.value.active
    {
      session := Lifecycle.ActiveLivySession(db.sessions, statusReply);
    }

    /**
     * `CombineJob(job_id=jobId)`: the session lookup, then `get_job`, whose
     * `.first()` gives no job when the id has no row. The two values are what
     * the object holds from then on.
     */
    method LoadCombineJob(jobId: nat, statusReply: Option<Lifecycle.SessionReply>)
      returns (session: Option<LivySession>, job: Option<Job>)
      requires Valid()
      ensures session == Lifecycle.ActiveLivySession(db.sessions, statusReply)
      ensures job.Some? <==> jobId in db.jobs
      ensures job.Some? ==> job.value == db.jobs[jobId] && job.value.id == jobId
    {
      session := ActiveSession(statusReply);
      job := if jobId in db.jobs then Some(db.jobs[jobId]) else None;
    }

    /**
     * `CombineJob.start_job()`: `session` and `cached` are the session and the
     * `Job` object the `CombineJob` took when it was built. Only that cached
     * session decides whether the job is prepared and submitted, and the
     * submission saves the cached object, so a change made to the row after
     * the `CombineJob` was built is overwritten. `submit` is the service's
     * reply to the submission. Returns whether the job was submitted.
     */
    method StartJob(session: Option<LivySession>, cached: Job, submit: Lifecycle.SubmitReply)
      returns (started: bool)
      requires Valid() && cached.id in db.jobs && cached.recordGroup in db.groups
      modifies this
      ensures started <==> session.Some?
      ensures started ==> db == old(db).(jobs := old(db).jobs[cached.id := Lifecycle.Submitted(cached, submit)])
      ensures !started ==> db == old(db)
      ensures nextId == old(nextId) && Valid()
    {
      if session.Some? {
        db := db.(jobs := db.jobs[cached.id := Lifecycle.Submitted(cached, submit)]);
        started := true;
      } else {
        started := false;
      }
    }

    /** `JobValidation.validation_failure_count(force_recount)` on the binding in row `i`. */
    method ValidationFailureCount(i: nat, forceRecount: bool) returns (count: Option<nat>)
      requires i < |db.validations| && db.validations[i].job in db.jobs
      modifies this
      ensures var v := old(db).validations[i];
              var step := Validation.FailureCountStep(v, old(db).jobs[v.job].finished,
                                                      Validation.RecordedFailures(old(db).records, old(db).recordValidations, v),
                                                      forceRecount);
              count == step.count && db == old(db).(validations := old(db).validations[i := step.binding])
      ensures nextId == old(nextId) && (old(Valid()) ==> Valid())
    {
      var v := db.validations[i];
      var recorded := Validation.RecordedFailures(db.records, db.recordValidations, v);
      var step := Validation.FailureCountStep(v, db.jobs[v.job].finished, recorded, forceRecount);
      db := db.(validations := db.validations[i := step.binding]);
      count := step.count;
      assert old(Valid()) ==> WellFormed(db) by {
        forall w | w in db.validations && old(Valid()) ensures w.job in db.jobs {
          var k :| 0 <= k < |db.validations| && db.validations[k] == w;
          if k != i {
            assert w == old(db).validations[k];
          }
        }
      }
    }

    /**
     * One turn of the `validation_results` loop: a binding of `job` has its
     * cache filled and adds the count it reports; any other row is skipped.
     * `before` is the database when the loop started.
     */
    method FillBinding(ghost before: Db, job: nat, i: nat) returns (add: nat)
      requires Validation.BindingsKnown(before) && i < |before.validations|
      requires db == before.(validations := Validation.FillCaches(before, job)[..i] + before.validations[i..])
      modifies this
      ensures db == before.(validations := Validation.FillCaches(before, job)[..i + 1] + before.validations[i + 1..])
      ensures add == if before.validations[i].job == job then Validation.Reported(before, before.validations[i]) else 0
      ensures nextId == old(nextId)
    {
      ghost var filled := Validation.FillCaches(before, job);
      Validation.FillPrefixStep(filled, before.validations, i);
      var v := db.validations[i];
      assert v == before.validations[i];
      assert v in before.validations;
      add := 0;
      if v.job == job {
        Validation.SameCountsAt(before, db, v);
        var count := ValidationFailureCount(i, false);
        if count.Some? {
          add := count.value;
        }
      } else {
        assert filled[i] == v;
      }
    }

    /** The loop of `validation_results`: every binding of `job` is filled, and their counts are summed. */
    method FillBindings(job: nat) returns (total: nat)
      requires Valid()
      modifies this
      ensures db == old(db).(validations := Validation.FillCaches(old(db), job))
      ensures total == Validation.SumCounts(old(db), BindingsOf(old(db).validations, job))
      ensures nextId == old(nextId) && Valid()
    {
      ghost var before := db;
      ghost var filled := Validation.FillCaches(before, job);
      total := 0;
      var i := 0;
      while i < |db.validations|
        invariant 0 <= i <= |db.validations| == |before.validations|
        invariant db == before.(validations := filled[..i] + before.validations[i..])
        invariant nextId == old(nextId)
        invariant total == Validation.SumCounts(before, BindingsOf(before.validations[..i], job))
      {
        Validation.SumStepAt(before, i, job);
        var add := FillBinding(before, job, i);
        total := total + add;
        i := i + 1;
      }
      assert before.validations[..i] == before.validations;
      assert filled[..i] + before.validations[i..] == filled;
      FillCachesValid(before, job, nextId);
    }

    /**
     * `Job.validation_results()`: fills the cache of each binding of `job` in
     * turn and sums the counts; the summary equals what the new state reports
     * and has the verdict and count of the state before.
     */
    method JobValidationResults(job: nat) returns (summary: Validation.ValidationSummary)
      requires Valid()
      modifies this
      ensures db == old(db).(validations := Validation.FillCaches(old(db), job))
      ensures summary == Validation.ValidationResults(db, job)
      ensures summary.verdict == Validation.ValidationResults(old(db), job).verdict
      ensures summary.failureCount == Validation.ValidationResults(old(db), job).failureCount
      ensures nextId == old(nextId) && Valid()
    {
      Validation.FillCachesKeepsResults(db, job);
      if |BindingsOf(db.validations, job)| == 0 {
        Validation.FillCachesNoBindings(db, job);
        summary := Validation.ValidationSummary(true, 0, []);
        return;
      }
      var total := FillBindings(job);
      Validation.FillCachesKeepsResults(old(db), job);
      summary := Validation.ValidationSummary(!(total > 0), total, BindingsOf(db.validations, job));
    }

    /** `PublishedRecords.update_published_uniqueness()`. */
    method UpdatePublishedUniqueness()
      requires Valid()
      modifies this
      ensures db == old(db).(records := Published.Uniqueness(old(db).records))
      ensures nextId == old(nextId) && Valid()
    {
      var marked := Published.MarkUniqueness(db.records);
      db := db.(records := marked);
      assert forall r :: r in marked ==> r.job in db.jobs by {
        forall r | r in marked ensures r.job in db.jobs {
          var k :| 0 <= k < |marked| && marked[k] == r;
          assert old(db).records[k] in old(db).records;
        }
      }
    }

    /** Saves the `Job` row of a new job under the next id. */
    method SaveJobRow(t: JobType, name: string, note: string, group: nat) returns (id: nat)
      requires Valid() && group in db.groups
      modifies this
      ensures id == old(nextId) && nextId == id + 1
      ensures db == old(db).(jobs := old(db).jobs[id := NewJob(id, name, note, t, group)])
      ensures Valid()
    {
      id := nextId;
      db := db.(jobs := db.jobs[id := NewJob(id, name, note, t, group)]);
      nextId := nextId + 1;
    }

    /** The loop that saves one `JobInput` per input job. */
    method SaveInputs(id: nat, inputJobs: seq<nat>)
      requires Valid() && id in db.jobs
      requires forall k :: k in inputJobs ==> k in db.jobs && k < id
      modifies this
      ensures db == old(db).(inputs := old(db).inputs + InputRows(id, inputJobs))
      ensures nextId == old(nextId) && Valid()
    {
      var i := 0;
      while i < |inputJobs|
        invariant 0 <= i <= |inputJobs|
        invariant db == old(db).(inputs := old(db).inputs + InputRows(id, inputJobs[..i]))
        invariant nextId == old(nextId) && Valid()
      {
        assert inputJobs[i] in inputJobs;
        assert InputRows(id, inputJobs[..i + 1]) == InputRows(id, inputJobs[..i]) + [JobInput(id, inputJobs[i])];
        db := db.(inputs := db.inputs + [JobInput(id, inputJobs[i])]);
        i := i + 1;
      }
      assert inputJobs[..i] == inputJobs;
    }

    /**
     * The loop that saves one `JobValidation` per scenario id, stopping at the
     * first id with no scenario (where the lookup raises). Returns whether
     * every scenario was bound.
     */
    method SaveBindings(id: nat, scenarios: seq<nat>) returns (complete: bool)
      requires Valid() && id in db.jobs
      modifies this
      ensures var n := KnownPrefix(old(db).scenarios, scenarios);
              && db == old(db).(validations := old(db).validations + BindingRows(id, old(nextId), scenarios[..n]))
              && nextId == old(nextId) + n
              && (complete <==> n == |scenarios|)
      ensures Valid()
    {
      var n := KnownPrefix(db.scenarios, scenarios);
      var k := 0;
      while k < |scenarios|
        invariant 0 <= k <= n
        invariant db == old(db).(validations := old(db).validations + BindingRows(id, old(nextId), scenarios[..k]))
        invariant nextId == old(nextId) + k && Valid()
      {
        if scenarios[k] !in db.scenarios {
          return false;
        }
        assert BindingRows(id, old(nextId), scenarios[..k + 1])
            == BindingRows(id, old(nextId), scenarios[..k]) + [JobValidation(nextId, id, scenarios[k], None)];
        db := db.(validations := db.validations + [JobValidation(nextId, id, scenarios[k], None)]);
        nextId := nextId + 1;
        k := k + 1;
      }
      assert scenarios[..k] == scenarios[..n];
      return true;
    }

    /**
     * What every job constructor does once it has its record group: save the
     * job row, one input edge per input job, then one binding per scenario,
     * raising at the first scenario that does not exist (the rows saved so far
     * stay). Returns the new job's id, or the error.
     */
    method CreateJob(t: JobType, name: string, note: string, group: nat, inputJobs: seq<nat>,
                     scenarios: seq<nat>, stamp: string) returns (r: Result<nat>)
      requires Valid() && group in db.groups && forall k :: k in inputJobs ==> k in db.jobs
      modifies this
      ensures var id := old(nextId);
              var n := KnownPrefix(old(db).scenarios, scenarios);
              && db == WithNewJob(old(db), id, JobName(name, t, stamp), note, t, group, inputJobs, scenarios)
              && nextId == id + 1 + n
              && (n == |scenarios| ==> r == Ok(id))
              && (n < |scenarios| ==> r.Err?)
      ensures Valid()
    {
      ghost var start := db;
      var jobName := JobName(name, t, stamp);
      var id := SaveJobRow(t, jobName, note, group);
      ghost var rowSaved := db;
      SaveInputs(id, inputJobs);
      ghost var inputsSaved := db;
      var complete := SaveBindings(id, scenarios);
      WithNewJobInSteps(start, rowSaved, inputsSaved, db, id, jobName, note, t, group, inputJobs, scenarios);
      if complete {
        r := Ok(id);
      } else {
        r := Err("ValidationScenario matching query does not exist");
      }
    }

    /** `HarvestOAIJob(...)` for a new job: no input jobs. */
    method HarvestOAIJobInit(name: string, note: string, group: nat, scenarios: seq<nat>, stamp: string,
                           statusReply: Option<Lifecycle.SessionReply>)
      returns (r: Result<nat>, session: Option<LivySession>)
      requires Valid() && group in db.groups
      modifies this
      ensures var n := KnownPrefix(old(db).scenarios, scenarios);
              && db == WithNewJob(old(db), old(nextId), JobName(name, HarvestOAIJob, stamp), note, HarvestOAIJob, group, [], scenarios)
              && nextId == old(nextId) + 1 + n
              && (r.Ok? <==> n == |scenarios|) && (r.Ok? ==> r.value == old(nextId))
      ensures session == Lifecycle.ActiveLivySession(old(db).sessions, statusReply)
      ensures Valid()
    {
      session := ActiveSession(statusReply);
      r := CreateJob(HarvestOAIJob, name, note, group, [], scenarios, stamp);
    }

    /** `HarvestStaticXMLJob(...)` for a new job: no input jobs; the static files are not modelled. */
    method HarvestStaticXMLJobInit(name: string, note: string, group: nat, scenarios: seq<nat>, stamp: string,
                           statusReply: Option<Lifecycle.SessionReply>)
      returns (r: Result<nat>, session: Option<LivySession>)
      requires Valid() && group in db.groups
      modifies this
      ensures var n := KnownPrefix(old(db).scenarios, scenarios);
              && db == WithNewJob(old(db), old(nextId), JobName(name, HarvestStaticXMLJob, stamp), note, HarvestStaticXMLJob, group, [], scenarios)
              && nextId == old(nextId) + 1 + n
              && (r.Ok? <==> n == |scenarios|) && (r.Ok? ==> r.value == old(nextId))
      ensures session == Lifecycle.ActiveLivySession(old(db).sessions, statusReply)
      ensures Valid()
    {
      session := ActiveSession(statusReply);
      r := CreateJob(HarvestStaticXMLJob, name, note, group, [], scenarios, stamp);
    }

    /** `TransformJob(...)` for a new job: one input job. */
    method TransformJobInit(name: string, note: string, group: nat, inputJob: nat, scenarios: seq<nat>, stamp: string,
                           statusReply: Option<Lifecycle.SessionReply>)
      returns (r: Result<nat>, session: Option<LivySession>)
      requires Valid() && group in db.groups && inputJob in db.jobs
      modifies this
      ensures var n := KnownPrefix(old(db).scenarios, scenarios);
              && db == WithNewJob(old(db), old(nextId), JobName(name, TransformJob, stamp), note, TransformJob, group, [inputJob], scenarios)
              && nextId == old(nextId) + 1 + n
              && (r.Ok? <==> n == |scenarios|) && (r.Ok? ==> r.value == old(nextId))
      ensures session == Lifecycle.ActiveLivySession(old(db).sessions, statusReply)
      ensures Valid()
    {
      session := ActiveSession(statusReply);
      r := CreateJob(TransformJob, name, note, group, [inputJob], scenarios, stamp);
    }

    /** `MergeJob(...)` for a new job: any number of input jobs. */
    method MergeJobInit(name: string, note: string, group: nat, inputJobs: seq<nat>, scenarios: seq<nat>, stamp: string,
                           statusReply: Option<Lifecycle.SessionReply>)
      returns (r: Result<nat>, session: Option<LivySession>)
      requires Valid() && group in db.groups && forall k :: k in inputJobs ==> k in db.jobs
      modifies this
      ensures var n := KnownPrefix(old(db).scenarios, scenarios);
              && db == WithNewJob(old(db), old(nextId), JobName(name, MergeJob, stamp), note, MergeJob, group, inputJobs, scenarios)
              && nextId == old(nextId) + 1 + n
              && (r.Ok? <==> n == |scenarios|) && (r.Ok? ==> r.value == old(nextId))
      ensures session == Lifecycle.ActiveLivySession(old(db).sessions, statusReply)
      ensures Valid()
    {
      session := ActiveSession(statusReply);
      r := CreateJob(MergeJob, name, note, group, inputJobs, scenarios, stamp);
    }

    /** `PublishJob(...)` for a new job: one input job, no bindings, and a publish link to the record group. */
    method PublishJobInit(name: string, note: string, group: nat, inputJob: nat, stamp: string,
                           statusReply: Option<Lifecycle.SessionReply>) returns (id: nat, session: Option<LivySession>)
      requires Valid() && group in db.groups && inputJob in db.jobs
      modifies this
      ensures id == old(nextId) && nextId == id + 1
      ensures var created := WithNewJob(old(db), id, JobName(name, PublishJob, stamp), note, PublishJob, group, [inputJob], []);
              db == created.(publishes := created.publishes + [JobPublish(group, id)])
      ensures session == Lifecycle.ActiveLivySession(old(db).sessions, statusReply)
      ensures Valid()
    {
      session := ActiveSession(statusReply);
      id := nextId;
      var created := CreateJob(PublishJob, name, note, group, [inputJob], [], stamp);
      db := db.(publishes := db.publishes + [JobPublish(group, id)]);
    }

    /** The organization half of `get_analysis_hierarchy`, once the name is known not to be ambiguous. */
    method FindOrCreateAnalysisOrg(orgName: string) returns (org: nat)
      requires Valid() && |OrgsNamed(db.organizations, orgName)| <= 1
      modifies this
      ensures var o := FindOrCreateOrg(old(db), old(nextId), orgName);
              db == o.db && nextId == o.next && org == o.org
      ensures Valid()
    {
      FindOrCreateOrgFacts(db, nextId, orgName);
      var orgs := set k | k in db.organizations && db.organizations[k].name == orgName;
      assert orgs == OrgsNamed(db.organizations, orgName);
      if |orgs| == 0 {
        org := nextId;
        db := db.(organizations := db.organizations[org := Organization(org, orgName, true)]);
        nextId := nextId + 1;
      } else {
        org :| org in orgs;
        SingletonMember(orgs, org);
      }
    }

    /** The record-group half of `get_analysis_hierarchy`, once the name is known not to be ambiguous. */
    method FindOrCreateAnalysisGroup(org: nat, groupName: string) returns (group: nat)
      requires Valid() && org in db.organizations && |GroupsNamed(db.groups, groupName)| <= 1
      modifies this
      ensures var h := FindOrCreateGroup(old(db), old(nextId), org, groupName);
              db == h.db && nextId == h.next && h.home == Ok(AnalysisHome(org, group))
      ensures Valid()
    {
      FindOrCreateGroupFacts(db, nextId, org, groupName);
      var groups := set k | k in db.groups && db.groups[k].name == groupName;
      assert groups == GroupsNamed(db.groups, groupName);
      if |groups| == 0 {
        group := nextId;
        db := db.(groups := db.groups[group := RecordGroup(group, org, groupName, None, true)]);
        nextId := nextId + 1;
      } else {
        group :| group in groups;
        SingletonMember(groups, group);
      }
    }

    /** `AnalysisJob.get_analysis_hierarchy()` with the configured organization and record-group names. */
    method GetAnalysisHierarchy(orgName: string, groupName: string) returns (r: Result<AnalysisHome>)
      requires Valid()
      modifies this
      ensures var h := AnalysisHierarchy(old(db), old(nextId), orgName, groupName);
              db == h.db && nextId == h.next && r == h.home
      ensures Valid()
    {
      if |OrgsNamed(db.organizations, orgName)| > 1 {
        return Err("multiple Organizations found for explicit purpose of aggregating Analysis jobs");
      }
      var org := FindOrCreateAnalysisOrg(orgName);
      FindOrCreateOrgFacts(old(db), old(nextId), orgName);
      if |GroupsNamed(db.groups, groupName)| > 1 {
        return Err("multiple Record Groups found for explicit purpose of aggregating Analysis jobs");
      }
      var group := FindOrCreateAnalysisGroup(org, groupName);
      r := Ok(AnalysisHome(org, group));
    }

    /**
     * The new-job branch of `AnalysisJob.__init__`: finds or creates the
     * analysis record group, then saves the job in it like a merge job.
     */
    method NewAnalysisJob(name: string, note: string, inputJobs: seq<nat>, scenarios: seq<nat>, stamp: string,
                          orgName: string, groupName: string) returns (r: Result<nat>)
      requires Valid() && forall k :: k in inputJobs ==> k in db.jobs
      modifies this
      ensures var h := AnalysisHierarchy(old(db), old(nextId), orgName, groupName);
              && (h.home.Err? ==> db == h.db && nextId == h.next && r.Err?)
              && (h.home.Ok? ==>
                    var n := KnownPrefix(h.db.scenarios, scenarios);
                    && db == WithNewJob(h.db, h.next, JobName(name, AnalysisJob, stamp), note, AnalysisJob, h.home.value.group, inputJobs, scenarios)
                    && nextId == h.next + 1 + n
                    && (r.Ok? <==> n == |scenarios|) && (r.Ok? ==> r.value == h.next))
      ensures Valid()
    {
      ghost var h := AnalysisHierarchy(db, nextId, orgName, groupName);
      AnalysisHierarchyHome(db, nextId, orgName, groupName, h);
      var home := GetAnalysisHierarchy(orgName, groupName);
      if home.Err? {
        return Err(home.message);
      }
      assert home.value.group in GroupsNamed(h.db.groups, groupName);
      r := CreateJob(AnalysisJob, name, note, home.value.group, inputJobs, scenarios, stamp);
    }

    /** `AnalysisJob(...)` for a new job: the session lookup, then the new-job branch. */
    method AnalysisJobInit(name: string, note: string, inputJobs: seq<nat>, scenarios: seq<nat>, stamp: string,
                           orgName: string, groupName: string,
                           statusReply: Option<Lifecycle.SessionReply>) returns (r: Result<nat>, session: Option<LivySession>)
      requires Valid() && forall k :: k in inputJobs ==> k in db.jobs
      modifies this
      ensures var h := AnalysisHierarchy(old(db), old(nextId), orgName, groupName);
              && (h.home.Err? ==> db == h.db && nextId == h.next && r.Err?)
              && (h.home.Ok? ==>
                    var n := KnownPrefix(h.db.scenarios, scenarios);
                    && db == WithNewJob(h.db, h.next, JobName(name, AnalysisJob, stamp), note, AnalysisJob, h.home.value.group, inputJobs, scenarios)
                    && nextId == h.next + 1 + n
                    && (r.Ok? <==> n == |scenarios|) && (r.Ok? ==> r.value == h.next))
      ensures session == Lifecycle.ActiveLivySession(old(db).sessions, statusReply)
      ensures Valid()
    {
      session := ActiveSession(statusReply);
      r := NewAnalysisJob(name, note, inputJobs, scenarios, stamp, orgName, groupName);
    }
  }
}

/**
 * The rows that the job constructors write: the new `Job` row, one
 * `JobInput` per input job, one `JobValidation` per requested scenario, and
 * the organization and record group that hold analysis jobs
 * (`AnalysisJob.get_analysis_hierarchy`).
 */
module Creation {
  import opened Wrappers
  import opened Schema
  import Validation
  import Lifecycle
  import JobInfo

  /**
   * The `Job` row a constructor saves: status `initializing`, not finished,
   * no remote statement yet, no records, no output.
   */
  function NewJob(id: nat, name: string, note: string, t: JobType, group: nat): (j: Job)
    ensures j.id == id && j.jobType == t && j.recordGroup == group && j.name == name && j.note == note
    ensures j.status == "initializing" && !j.finished && !j.deleted
    ensures j.url.None? && j.livyJobId.None? && j.jobOutput.None? && j.recordCount == 0
  {
    Job(id, name, note, t, group, "initializing", false, None, None, 0, 0, false, None)
  }

  /** `default_job_name`: the class name and a time stamp (the wall clock is an input). */
  function DefaultJobName(t: JobType, stamp: string): string
  {
    TypeName(t) + " @ " + stamp
  }

  /** The name the job gets: the given one, or the default when none (or an empty one) was given. */
  function JobName(given: string, t: JobType, stamp: string): (r: string)
    ensures given != "" ==> r == given
    ensures given == "" ==> r == DefaultJobName(t, stamp) && r[..|TypeName(t)|] == TypeName(t)
  {
    if given == "" then DefaultJobName(t, stamp) else given
  }

  /** The input edges saved for a new job, one per input job, in the order given. */
  function InputRows(job: nat, inputJobs: seq<nat>): (r: seq<JobInput>)
    ensures |r| == |inputJobs|
    ensures forall i :: 0 <= i < |r| ==> r[i] == JobInput(job, inputJobs[i])
  {
    seq(|inputJobs|, i requires 0 <= i < |inputJobs| => JobInput(job, inputJobs[i]))
  }

  /**
   * How many of the requested scenarios are bound before the first one that
   * does not exist, where `ValidationScenario.objects.get` raises.
   */
  function KnownPrefix(table: set<nat>, scenarios: seq<nat>): (n: nat)
    ensures n <= |scenarios|
    ensures forall i :: 0 <= i < n ==> scenarios[i] in table
    ensures n < |scenarios| ==> scenarios[n] !in table
  {
    if scenarios == [] || scenarios[0] !in table then 0
    else 1 + KnownPrefix(table, scenarios[1..])
  }

  /** The bindings saved for `scenarios`, with ids from `firstId` on and no cached count. */
  function BindingRows(job: nat, firstId: nat, scenarios: seq<nat>): (r: seq<JobValidation>)
    ensures |r| == |scenarios|
    ensures forall i :: 0 <= i < |r| ==> r[i] == JobValidation(firstId + i, job, scenarios[i], None)
  {
    seq(|scenarios|, i requires 0 <= i < |scenarios| => JobValidation(firstId + i, job, scenarios[i], None))
  }

  /** Every id in the database is below `next`, the id the next saved row gets. */
  predicate IdsBelow(db: Db, next: nat)
  {
    && (forall k :: k in db.jobs ==> k < next)
    && (forall k :: k in db.groups ==> k < next)
    && (forall k :: k in db.organizations ==> k < next)
    && (forall v :: v in db.validations ==> v.id < next)
  }

  /**
   * The database after a constructor has saved the job row `id`, its input
   * edges and the bindings of the known prefix of `scenarios`.
   */
  function WithNewJob(db: Db, id: nat, name: string, note: string, t: JobType, group: nat,
                      inputJobs: seq<nat>, scenarios: seq<nat>): Db
  {
    var bound := scenarios[..KnownPrefix(db.scenarios, scenarios)];
    db.(jobs := db.jobs[id := NewJob(id, name, note, t, group)],
        inputs := db.inputs + InputRows(id, inputJobs),
        validations := db.validations + BindingRows(id, id + 1, bound))
  }

  /** Saving the job row, then its input edges, then its bindings, in that order, gives `WithNewJob`. */
  lemma WithNewJobInSteps(db: Db, rowSaved: Db, inputsSaved: Db, bindingsSaved: Db, id: nat, name: string, note: string,
                          t: JobType, group: nat, inputJobs: seq<nat>, scenarios: seq<nat>)
    requires rowSaved == db.(jobs := db.jobs[id := NewJob(id, name, note, t, group)])
    requires inputsSaved == rowSaved.(inputs := rowSaved.inputs + InputRows(id, inputJobs))
    requires bindingsSaved == inputsSaved.(validations := inputsSaved.validations
                + BindingRows(id, id + 1, scenarios[..KnownPrefix(inputsSaved.scenarios, scenarios)]))
    ensures bindingsSaved == WithNewJob(db, id, name, note, t, group, inputJobs, scenarios)
  {
  }

  /**
   * Saving a new job keeps the database well formed when its record group and
   * input jobs exist and its id is fresh: the new edges point to older jobs,
   * so the job graph stays acyclic.
   */
  lemma NewJobWellFormed(db: Db, id: nat, name: string, note: string, t: JobType, group: nat,
                         inputJobs: seq<nat>, scenarios: seq<nat>)
    requires WellFormed(db) && IdsBelow(db, id)
    requires group in db.groups && forall k :: k in inputJobs ==> k in db.jobs
    ensures var db' := WithNewJob(db, id, name, note, t, group, inputJobs, scenarios);
            WellFormed(db') && IdsBelow(db', id + 1 + KnownPrefix(db.scenarios, scenarios))
  {
    var db' := WithNewJob(db, id, name, note, t, group, inputJobs, scenarios);
    var rows := InputRows(id, inputJobs);
    forall l | l in db'.inputs ensures l.job in db'.jobs && l.inputJob in db'.jobs && l.inputJob < l.job {
      if l !in db.inputs {
        var i :| 0 <= i < |rows| && rows[i] == l;
        assert inputJobs[i] in inputJobs;
      }
    }
    var n := KnownPrefix(db.scenarios, scenarios);
    var bindings := BindingRows(id, id + 1, scenarios[..n]);
    forall v | v in db'.validations ensures v.job in db'.jobs && v.id < id + 1 + n {
      if v !in db.validations {
        var i :| 0 <= i < |bindings| && bindings[i] == v;
      }
    }
  }

  /** New edges that all lead into a job nobody reads leave the ancestors of every other job as they were. */
  lemma {:induction false} NewEdgesKeepAncestors(inputs: seq<JobInput>, extra: seq<JobInput>, n: nat, job: nat)
    requires Acyclic(inputs) && Acyclic(inputs + extra)
    requires forall l :: l in inputs ==> l.job != n && l.inputJob != n
    requires forall l :: l in extra ==> l.job == n
    requires job != n
    ensures Ancestors(inputs + extra, job) == Ancestors(inputs, job)
    decreases job, 1
  {
    InputLinksAppend(inputs, extra, job);
    InputLinksNone(extra, job);
    assert InputLinks(inputs + extra, job) == InputLinks(inputs, job);
    NewEdgesKeepAncestorsVia(inputs, extra, n, job, InputLinks(inputs, job));
  }

  lemma {:induction false} NewEdgesKeepAncestorsVia(inputs: seq<JobInput>, extra: seq<JobInput>, n: nat, job: nat, links: seq<JobInput>)
    requires Acyclic(inputs) && Acyclic(inputs + extra)
    requires forall l :: l in inputs ==> l.job != n && l.inputJob != n
    requires forall l :: l in extra ==> l.job == n
    requires job != n
    requires forall l :: l in links ==> l in inputs && l.job == job
    ensures AncestorsVia(inputs + extra, job, links) == AncestorsVia(inputs, job, links)
    decreases job, 0, |links|
  {
    if links != [] {
      assert links[0] in links;
      assert forall l :: l in links[1..] ==> l in links;
      NewEdgesKeepAncestors(inputs, extra, n, links[0].inputJob);
      NewEdgesKeepAncestorsVia(inputs, extra, n, job, links[1..]);
    }
  }

  lemma {:induction false} InputLinksAppend(a: seq<JobInput>, b: seq<JobInput>, job: nat)
    ensures InputLinks(a + b, job) == InputLinks(a, job) + InputLinks(b, job)
    decreases |a|
  {
    if a != [] {
      var ab := a + b;
      assert ab != [] && ab[0] == a[0] && ab[1..] == a[1..] + b;
      InputLinksAppend(a[1..], b, job);
      assert InputLinks(ab, job) == (if a[0].job == job then [a[0]] else []) + InputLinks(a[1..] + b, job);
      assert InputLinks(a, job) == (if a[0].job == job then [a[0]] else []) + InputLinks(a[1..], job);
      if a[0].job == job {
        assert [a[0]] + (InputLinks(a[1..], job) + InputLinks(b, job))
            == ([a[0]] + InputLinks(a[1..], job)) + InputLinks(b, job);
      }
    } else {
      assert a + b == b;
    }
  }

  lemma {:induction false} InputLinksNone(inputs: seq<JobInput>, job: nat)
    requires forall l :: l in inputs ==> l.job != job
    ensures InputLinks(inputs, job) == []
    decreases |inputs|
  {
    if inputs != [] {
      assert inputs[0] in inputs;
      assert forall l :: l in inputs[1..] ==> l in inputs;
      InputLinksNone(inputs[1..], job);
    }
  }

  /**
   * Creating a job does not change the lineage of any job that already
   * existed: the ancestors of every old job are the same afterwards.
   */
  lemma NewJobKeepsAncestors(db: Db, id: nat, name: string, note: string, t: JobType, group: nat,
                             inputJobs: seq<nat>, scenarios: seq<nat>, job: nat)
    requires WellFormed(db) && IdsBelow(db, id)
    requires group in db.groups && forall k :: k in inputJobs ==> k in db.jobs
    requires job in db.jobs
    ensures var db' := WithNewJob(db, id, name, note, t, group, inputJobs, scenarios);
            WellFormed(db') && Ancestors(db'.inputs, job) == Ancestors(db.inputs, job)
  {
    NewJobWellFormed(db, id, name, note, t, group, inputJobs, scenarios);
    NewEdgesKeepAncestors(db.inputs, InputRows(id, inputJobs), id, job);
  }

  /**
   * A new job has no finished run, so its bindings report no count yet and
   * its validation verdict is a pass with no failures.
   */
  lemma NewJobPassesValidation(db: Db, id: nat, name: string, note: string, t: JobType, group: nat,
                               inputJobs: seq<nat>, scenarios: seq<nat>)
    requires WellFormed(db) && IdsBelow(db, id)
    requires group in db.groups && forall k :: k in inputJobs ==> k in db.jobs
    ensures var db' := WithNewJob(db, id, name, note, t, group, inputJobs, scenarios);
            WellFormed(db')
            && Validation.ValidationResults(db', id).verdict
            && Validation.ValidationResults(db', id).failureCount == 0
            && |Validation.ValidationResults(db', id).scenarios| == KnownPrefix(db.scenarios, scenarios)
  {
    NewJobWellFormed(db, id, name, note, t, group, inputJobs, scenarios);
    var db' := WithNewJob(db, id, name, note, t, group, inputJobs, scenarios);
    var n := KnownPrefix(db.scenarios, scenarios);
    var rows := BindingRows(id, id + 1, scenarios[..n]);
    assert db'.validations == db.validations + rows;
    assert db'.jobs[id] == NewJob(id, name, note, t, group);
    NewBindingsOnly(db.validations, rows, id);
    NoReportsSumZero(db', rows);
  }

  /** The bindings of a job that had none are exactly the rows added for it. */
  lemma NewBindingsOnly(old_: seq<JobValidation>, rows: seq<JobValidation>, id: nat)
    requires forall v :: v in old_ ==> v.job != id
    requires forall v :: v in rows ==> v.job == id
    ensures BindingsOf(old_ + rows, id) == rows
  {
    BindingsOfAppend(old_, rows, id);
    BindingsOfNone(old_, id);
    BindingsOfAll(rows, id);
  }

  lemma {:induction false} BindingsOfAppend(a: seq<JobValidation>, b: seq<JobValidation>, job: nat)
    ensures BindingsOf(a + b, job) == BindingsOf(a, job) + BindingsOf(b, job)
    decreases |a|
  {
    if a != [] {
      var ab := a + b;
      assert ab != [] && ab[0] == a[0] && ab[1..] == a[1..] + b;
      BindingsOfAppend(a[1..], b, job);
      assert BindingsOf(ab, job) == (if a[0].job == job then [a[0]] else []) + BindingsOf(a[1..] + b, job);
      assert BindingsOf(a, job) == (if a[0].job == job then [a[0]] else []) + BindingsOf(a[1..], job);
      if a[0].job == job {
        assert [a[0]] + (BindingsOf(a[1..], job) + BindingsOf(b, job))
            == ([a[0]] + BindingsOf(a[1..], job)) + BindingsOf(b, job);
      }
    } else {
      assert a + b == b;
    }
  }

  lemma {:induction false} BindingsOfNone(validations: seq<JobValidation>, job: nat)
    requires forall v :: v in validations ==> v.job != job
    ensures BindingsOf(validations, job) == []
    decreases |validations|
  {
    if validations != [] {
      assert validations[0] in validations;
      assert forall v :: v in validations[1..] ==> v in validations;
      BindingsOfNone(validations[1..], job);
    }
  }

  lemma {:induction false} BindingsOfAll(rows: seq<JobValidation>, job: nat)
    requires forall v :: v in rows ==> v.job == job
    ensures BindingsOf(rows, job) == rows
    decreases |rows|
  {
    if rows != [] {
      assert forall v :: v in rows[1..] ==> v in rows;
      BindingsOfAll(rows[1..], job);
    }
  }

  lemma {:induction false} NoReportsSumZero(db: Db, bindings: seq<JobValidation>)
    requires forall v :: v in bindings ==> v.job in db.jobs && !db.jobs[v.job].finished && v.failureCount.None?
    ensures Validation.SumCounts(db, bindings) == 0
    decreases |bindings|
  {
    if bindings != [] {
      assert bindings[0] in bindings;
      assert forall v :: v in bindings[1..] ==> v in bindings;
      NoReportsSumZero(db, bindings[1..]);
    }
  }

  /** A new job has no remote statement, so `update_status` does not poll it until it is submitted. */
  lemma NewJobNotPolled(id: nat, name: string, note: string, t: JobType, group: nat)
    ensures !Lifecycle.Polled(NewJob(id, name, note, t, group))
  {
  }

  /**
   * A new `AnalysisJob` has no output path, so `job_output_as_filesystem`
   * raises on it: the post-save signal that sets the path skips that class.
   */
  lemma NewJobHasNoOutputLocation(id: nat, name: string, note: string, t: JobType, group: nat)
    requires t == AnalysisJob
    ensures JobInfo.JobOutputAsFilesystem(NewJob(id, name, note, t, group)).Err?
  {
  }

  /** The organizations with a given name. */
  function OrgsNamed(orgs: map<nat, Organization>, name: string): (r: set<nat>)
    ensures forall k :: k in r <==> k in orgs && orgs[k].name == name
  {
    set k | k in orgs && orgs[k].name == name
  }

  /** The record groups with a given name, in any organization. */
  function GroupsNamed(groups: map<nat, RecordGroup>, name: string): (r: set<nat>)
    ensures forall k :: k in r <==> k in groups && groups[k].name == name
  {
    set k | k in groups && groups[k].name == name
  }

  /** The single member of a one-element set. */
  ghost function Only(s: set<nat>): (r: nat)
    requires |s| == 1
    ensures s == {r}
  {
    var k :| k in s;
    SingletonMember(s, k);
    k
  }

  lemma SingletonMember(s: set<nat>, k: nat)
    requires |s| == 1 && k in s
    ensures s == {k}
  {
    var rest := s - {k};
    assert |rest| == 0;
    assert rest == {};
  }

  /** The organization and record group that analysis jobs belong to. */
  datatype AnalysisHome = AnalysisHome(org: nat, group: nat)

  /** The database, the next free id and the answer after `get_analysis_hierarchy`. */
  datatype HierarchyOutcome = HierarchyOutcome(db: Db, next: nat, home: Result<AnalysisHome>)

  /** The database and next free id after the organization step, and the organization found or created. */
  datatype OrgStep = OrgStep(db: Db, next: nat, org: nat)

  /** The organization step when the name is not ambiguous: create it when missing, otherwise use it. */
  ghost function FindOrCreateOrg(db: Db, next: nat, orgName: string): OrgStep
    requires |OrgsNamed(db.organizations, orgName)| <= 1
  {
    var orgs := OrgsNamed(db.organizations, orgName);
    if |orgs| == 0 then OrgStep(db.(organizations := db.organizations[next := Organization(next, orgName, true)]), next + 1, next)
    else OrgStep(db, next, Only(orgs))
  }

  /** The record-group step when the name is not ambiguous. */
  ghost function FindOrCreateGroup(db: Db, next: nat, org: nat, groupName: string): HierarchyOutcome
    requires |GroupsNamed(db.groups, groupName)| <= 1
  {
    var groups := GroupsNamed(db.groups, groupName);
    if |groups| == 0 then
      HierarchyOutcome(db.(groups := db.groups[next := RecordGroup(next, org, groupName, None, true)]),
                       next + 1, Ok(AnalysisHome(org, next)))
    else HierarchyOutcome(db, next, Ok(AnalysisHome(org, Only(groups))))
  }

  /**
   * `AnalysisJob.get_analysis_hierarchy` with the configured names: the
   * organization with that name is created when there is none and used when
   * there is one; likewise the record group (searched by name alone, in any
   * organization). More than one match raises, and an organization created
   * before the record-group search raises stays saved.
   */
  ghost function AnalysisHierarchy(db: Db, next: nat, orgName: string, groupName: string): HierarchyOutcome
  {
    if |OrgsNamed(db.organizations, orgName)| > 1 then
      HierarchyOutcome(db, next, Err("multiple Organizations found for explicit purpose of aggregating Analysis jobs"))
    else
      var o := FindOrCreateOrg(db, next, orgName);
      if |GroupsNamed(o.db.groups, groupName)| > 1 then
        HierarchyOutcome(o.db, o.next, Err("multiple Record Groups found for explicit purpose of aggregating Analysis jobs"))
      else FindOrCreateGroup(o.db, o.next, o.org, groupName)
  }

  /** The organization step keeps the database well formed and leaves one organization with the name. */
  lemma FindOrCreateOrgFacts(db: Db, next: nat, orgName: string)
    requires WellFormed(db) && IdsBelow(db, next)
    requires |OrgsNamed(db.organizations, orgName)| <= 1
    ensures var o := FindOrCreateOrg(db, next, orgName);
            && WellFormed(o.db) && IdsBelow(o.db, o.next) && next <= o.next
            && o.db.(organizations := db.organizations) == db
            && OrgsNamed(o.db.organizations, orgName) == {o.org}
  {
    var orgs := OrgsNamed(db.organizations, orgName);
    if |orgs| == 0 {
      assert orgs == {};
    } else {
      assert Only(orgs) in orgs;
    }
  }

  /** The record-group step keeps the database well formed and leaves one record group with the name. */
  lemma FindOrCreateGroupFacts(db: Db, next: nat, org: nat, groupName: string)
    requires WellFormed(db) && IdsBelow(db, next) && org in db.organizations
    requires |GroupsNamed(db.groups, groupName)| <= 1
    ensures var h := FindOrCreateGroup(db, next, org, groupName);
            && WellFormed(h.db) && IdsBelow(h.db, h.next) && next <= h.next
            && h.db.(groups := db.groups) == db
            && h.home.Ok? && h.home.value.org == org
            && GroupsNamed(h.db.groups, groupName) == {h.home.value.group}
            && (h.home.value.group !in db.groups ==> h.db.groups[h.home.value.group].organization == org)
  {
    var groups := GroupsNamed(db.groups, groupName);
    if |groups| == 0 {
      assert groups == {};
    } else {
      assert Only(groups) in groups;
    }
  }

  /**
   * The lookup fails exactly when the name of the organization or of the
   * record group is ambiguous; on success both rows exist with the configured
   * names and are the only ones with those names, the database stays well
   * formed, and a record group created here belongs to the analysis
   * organization.
   */
  lemma AnalysisHierarchyHome(db: Db, next: nat, orgName: string, groupName: string, h: HierarchyOutcome)
    requires WellFormed(db) && IdsBelow(db, next)
    requires h == AnalysisHierarchy(db, next, orgName, groupName)
    ensures && (h.home.Err? <==> |OrgsNamed(db.organizations, orgName)| > 1 || |GroupsNamed(db.groups, groupName)| > 1)
            && WellFormed(h.db) && IdsBelow(h.db, h.next) && next <= h.next
            && h.db.jobs == db.jobs && h.db.inputs == db.inputs && h.db.records == db.records
            && (h.home.Ok? ==>
                  && OrgsNamed(h.db.organizations, orgName) == {h.home.value.org}
                  && GroupsNamed(h.db.groups, groupName) == {h.home.value.group}
                  && (h.home.value.group !in db.groups ==> h.db.groups[h.home.value.group].organization == h.home.value.org))
  {
    AnalysisHierarchyFails(db, next, orgName, groupName, h);
    AnalysisHierarchyKeeps(db, next, orgName, groupName, h);
    AnalysisHierarchyFound(db, next, orgName, groupName, h);
  }

  lemma AnalysisHierarchyFails(db: Db, next: nat, orgName: string, groupName: string, h: HierarchyOutcome)
    requires WellFormed(db) && IdsBelow(db, next)
    requires h == AnalysisHierarchy(db, next, orgName, groupName)
    ensures h.home.Err? <==> |OrgsNamed(db.organizations, orgName)| > 1 || |GroupsNamed(db.groups, groupName)| > 1
  {
    if |OrgsNamed(db.organizations, orgName)| <= 1 {
      FindOrCreateOrgFacts(db, next, orgName);
      var o := FindOrCreateOrg(db, next, orgName);
      assert o.db.groups == db.groups && o.db.jobs == db.jobs && o.db.inputs == db.inputs && o.db.records == db.records;
      if |GroupsNamed(o.db.groups, groupName)| <= 1 {
        assert o.org in o.db.organizations;
        assert h == FindOrCreateGroup(o.db, o.next, o.org, groupName);
        FindOrCreateGroupFacts(o.db, o.next, o.org, groupName);
        assert h.db.organizations == o.db.organizations;
      }
    }
  }

  lemma AnalysisHierarchyKeeps(db: Db, next: nat, orgName: string, groupName: string, h: HierarchyOutcome)
    requires WellFormed(db) && IdsBelow(db, next)
    requires h == AnalysisHierarchy(db, next, orgName, groupName)
    ensures && WellFormed(h.db) && IdsBelow(h.db, h.next) && next <= h.next
            && h.db.jobs == db.jobs && h.db.inputs == db.inputs && h.db.records == db.records
  {
    if |OrgsNamed(db.organizations, orgName)| <= 1 {
      FindOrCreateOrgFacts(db, next, orgName);
      var o := FindOrCreateOrg(db, next, orgName);
      assert o.db.groups == db.groups && o.db.jobs == db.jobs && o.db.inputs == db.inputs && o.db.records == db.records;
      if |GroupsNamed(o.db.groups, groupName)| <= 1 {
        assert o.org in o.db.organizations;
        assert h == FindOrCreateGroup(o.db, o.next, o.org, groupName);
        FindOrCreateGroupFacts(o.db, o.next, o.org, groupName);
        assert h.db.organizations == o.db.organizations;
      }
    }
  }

  lemma AnalysisHierarchyFound(db: Db, next: nat, orgName: string, groupName: string, h: HierarchyOutcome)
    requires WellFormed(db) && IdsBelow(db, next)
    requires h == AnalysisHierarchy(db, next, orgName, groupName)
    ensures h.home.Ok? ==>
              && OrgsNamed(h.db.organizations, orgName) == {h.home.value.org}
              && GroupsNamed(h.db.groups, groupName) == {h.home.value.group}
              && (h.home.value.group !in db.groups ==> h.db.groups[h.home.value.group].organization == h.home.value.org)
  {
    if |OrgsNamed(db.organizations, orgName)| <= 1 {
      FindOrCreateOrgFacts(db, next, orgName);
      var o := FindOrCreateOrg(db, next, orgName);
      assert o.db.groups == db.groups;
      if |GroupsNamed(o.db.groups, groupName)| <= 1 {
        assert o.org in o.db.organizations;
        var g := FindOrCreateGroup(o.db, o.next, o.org, groupName);
        assert h == g;
        FindOrCreateGroupFacts(o.db, o.next, o.org, groupName);
        assert g.db.organizations == o.db.organizations;
        assert OrgsNamed(g.db.organizations, orgName) == {o.org};
        assert g.home.value.org == o.org;
      }
    }
  }

  /**
   * Once the lookup has succeeded, running it again finds the same
   * organization and record group and changes nothing.
   */
  lemma AnalysisHierarchyIdempotent(db: Db, next: nat, orgName: string, groupName: string)
    requires WellFormed(db) && IdsBelow(db, next)
    requires AnalysisHierarchy(db, next, orgName, groupName).home.Ok?
    ensures var h := AnalysisHierarchy(db, next, orgName, groupName);
            AnalysisHierarchy(h.db, h.next, orgName, groupName) == h
  {
    var h := AnalysisHierarchy(db, next, orgName, groupName);
    AnalysisHierarchyHome(db, next, orgName, groupName, h);
    var org := h.home.value.org;
    var group := h.home.value.group;
    assert Only({org}) == org;
    assert Only({group}) == group;
  }
}

/**
 * The rows of the database tables the core reads and writes, the in-memory
 * database that holds them, and the queries over it that several components
 * share. A Django model instance is one row; `save()` is the write of that
 * row back into its table.
 */
module Schema {
  import opened Wrappers

  /** The concrete job classes whose names are stored in `Job.job_type`. */
  datatype JobType = HarvestOAIJob | HarvestStaticXMLJob | TransformJob | MergeJob | PublishJob | AnalysisJob

  /** The class name stored in the `job_type` column. */
  function TypeName(t: JobType): string
  {
    match t
    case HarvestOAIJob => "HarvestOAIJob"
    case HarvestStaticXMLJob => "HarvestStaticXMLJob"
    case TransformJob => "TransformJob"
    case MergeJob => "MergeJob"
    case PublishJob => "PublishJob"
    case AnalysisJob => "AnalysisJob"
  }

  /** One pipeline stage (the `Job` table). */
  datatype Job = Job(
    id: nat,
    name: string,
    note: string,
    jobType: JobType,
    recordGroup: nat,
    status: string,
    finished: bool,
    url: Option<string>,
    livyJobId: Option<int>,
    recordCount: nat,
    elapsed: nat,
    deleted: bool,
    jobOutput: Option<string>)

  /** `JobInput`: `job` reads the records of `inputJob`. */
  datatype JobInput = JobInput(job: nat, inputJob: nat)

  /** `JobPublish`: `job` is a publication of record group `recordGroup`. */
  datatype JobPublish = JobPublish(recordGroup: nat, job: nat)

  /** `JobTrack`: start and finish of a job, in seconds. */
  datatype JobTrack = JobTrack(job: nat, start: int, finish: int)

  /** `JobValidation`: a validation scenario run for a job, with its cached failure count. */
  datatype JobValidation = JobValidation(id: nat, job: nat, scenario: nat, failureCount: Option<nat>)

  /** `RecordValidation`: a validation result stored for one record under one scenario. */
  datatype RecordValidation = RecordValidation(record: nat, scenario: nat)

  /** `Record`: one output unit of a job; `recordId` is stable across the pipeline. */
  datatype Record = Record(
    id: nat,
    job: nat,
    recordId: string,
    success: bool,
    published: bool,
    uniquePublished: Option<bool>)

  datatype Organization = Organization(id: nat, name: string, forAnalysis: bool)

  datatype RecordGroup = RecordGroup(
    id: nat,
    organization: nat,
    name: string,
    publishSetId: Option<string>,
    forAnalysis: bool)

  /** `LivySession`: a session on the remote Spark service. */
  datatype LivySession = LivySession(
    id: nat,
    sessionId: int,
    status: string,
    active: bool,
    timestamp: string,
    appId: Option<string>,
    driverLogUrl: Option<string>,
    sparkUiUrl: Option<string>)

  /**
   * The database. Tables whose rows the core looks up by primary key are maps;
   * the others are sequences in primary-key order, which is the order in which
   * an unordered query returns them.
   */
  datatype Db = Db(
    jobs: map<nat, Job>,
    inputs: seq<JobInput>,
    publishes: seq<JobPublish>,
    tracks: seq<JobTrack>,
    validations: seq<JobValidation>,
    recordValidations: seq<RecordValidation>,
    records: seq<Record>,
    organizations: map<nat, Organization>,
    groups: map<nat, RecordGroup>,
    scenarios: set<nat>,
    sessions: seq<LivySession>)

  /**
   * Every input edge points to a job with a smaller id. Ids are assigned in
   * increasing order and an input job exists before the job that reads it, so
   * the job graph is acyclic.
   */
  predicate Acyclic(inputs: seq<JobInput>)
  {
    forall l :: l in inputs ==> l.inputJob < l.job
  }

  /** The foreign keys of the database point to existing rows, and the job graph is acyclic. */
  predicate WellFormed(db: Db)
  {
    && (forall k :: k in db.jobs ==> db.jobs[k].id == k && db.jobs[k].recordGroup in db.groups)
    && (forall l :: l in db.inputs ==> l.job in db.jobs && l.inputJob in db.jobs)
    && Acyclic(db.inputs)
    && (forall g :: g in db.groups ==> db.groups[g].id == g && db.groups[g].organization in db.organizations)
    && (forall o :: o in db.organizations ==> db.organizations[o].id == o)
    && (forall v :: v in db.validations ==> v.job in db.jobs)
    && (forall r :: r in db.records ==> r.job in db.jobs)
    && (forall p :: p in db.publishes ==> p.recordGroup in db.groups && p.job in db.jobs)
  }

  /** `job.jobinput_set.all()`: the input edges of `job`, in table order. */
  function InputLinks(inputs: seq<JobInput>, job: nat): (r: seq<JobInput>)
    ensures forall l :: l in r <==> l in inputs && l.job == job
  {
    if inputs == [] then []
    else if inputs[0].job == job then [inputs[0]] + InputLinks(inputs[1..], job)
    else InputLinks(inputs[1..], job)
  }

  /** `JobInput.objects.filter(input_job=job)`: the edges of the jobs that read `job`. */
  function OutputLinks(inputs: seq<JobInput>, job: nat): (r: seq<JobInput>)
    ensures forall l :: l in r <==> l in inputs && l.inputJob == job
  {
    if inputs == [] then []
    else if inputs[0].inputJob == job then [inputs[0]] + OutputLinks(inputs[1..], job)
    else OutputLinks(inputs[1..], job)
  }

  /** `job.jobvalidation_set.all()`. */
  function BindingsOf(validations: seq<JobValidation>, job: nat): (r: seq<JobValidation>)
    ensures forall v :: v in r <==> v in validations && v.job == job
  {
    if validations == [] then []
    else if validations[0].job == job then [validations[0]] + BindingsOf(validations[1..], job)
    else BindingsOf(validations[1..], job)
  }

  /** `job.record_set.count()`. */
  function RecordCountOf(records: seq<Record>, job: nat): nat
  {
    if records == [] then 0
    else (if records[0].job == job then 1 else 0) + RecordCountOf(records[1..], job)
  }

  /** `Record.objects.filter(job=job).filter(record_id=rid).first()`: the matching row with the smallest primary key. */
  function FirstRecord(records: seq<Record>, job: nat, rid: string): (r: Option<Record>)
    ensures r.Some? ==> r.value in records && r.value.job == job && r.value.recordId == rid
    ensures r.None? <==> forall x :: x in records ==> !(x.job == job && x.recordId == rid)
    ensures r.Some? ==> exists i :: 0 <= i < |records| && records[i] == r.value
                                  && forall k :: 0 <= k < i ==> !(records[k].job == job && records[k].recordId == rid)
  {
    if records == [] then None
    else if records[0].job == job && records[0].recordId == rid then Some(records[0])
    else
      var rest := FirstRecord(records[1..], job, rid);
      if rest.Some? then
        var i :| 0 <= i < |records[1..]| && records[1..][i] == rest.value
                 && forall k :: 0 <= k < i ==> !(records[1..][k].job == job && records[1..][k].recordId == rid);
        assert records[i + 1] == rest.value;
        rest
      else rest
  }

  /** The job that owns the record row with primary key `record`, if there is one. */
  function JobOfRecord(records: seq<Record>, record: nat): Option<nat>
  {
    if records == [] then None
    else if records[0].id == record then Some(records[0].job)
    else JobOfRecord(records[1..], record)
  }

  /**
   * The ancestors of `job`: every job reachable from it through input edges,
   * following the edges of each job in table order.
   */
  function Ancestors(inputs: seq<JobInput>, job: nat): set<nat>
    requires Acyclic(inputs)
    decreases job, 1
  {
    AncestorsVia(inputs, job, InputLinks(inputs, job))
  }

  /** The input jobs named by `links` (edges of `job`) and their ancestors. */
  function AncestorsVia(inputs: seq<JobInput>, job: nat, links: seq<JobInput>): set<nat>
    requires Acyclic(inputs)
    requires forall l :: l in links ==> l in inputs && l.job == job
    decreases job, 0, |links|
  {
    if links == [] then {}
    else {links[0].inputJob} + Ancestors(inputs, links[0].inputJob) + AncestorsVia(inputs, job, links[1..])
  }

  /** A set of jobs that contains the input jobs of each of its members. */
  predicate ClosedUnderInputs(inputs: seq<JobInput>, s: set<nat>)
  {
    forall l :: l in inputs && l.job in s ==> l.inputJob in s
  }

  lemma {:induction false} AncestorsViaMembers(inputs: seq<JobInput>, job: nat, links: seq<JobInput>, x: nat)
    requires Acyclic(inputs)
    requires forall l :: l in links ==> l in inputs && l.job == job
    ensures x in AncestorsVia(inputs, job, links) <==>
            exists l :: l in links && (x == l.inputJob || x in Ancestors(inputs, l.inputJob))
    decreases |links|
  {
    if links != [] {
      AncestorsViaMembers(inputs, job, links[1..], x);
      assert forall l :: l in links <==> l == links[0] || l in links[1..];
    }
  }

  /** Every ancestor has a smaller id than its descendant. */
  lemma {:induction false} AncestorsBelow(inputs: seq<JobInput>, job: nat)
    requires Acyclic(inputs)
    ensures forall a :: a in Ancestors(inputs, job) ==> a < job
    decreases job
  {
    forall a | a in Ancestors(inputs, job) ensures a < job {
      AncestorsViaMembers(inputs, job, InputLinks(inputs, job), a);
      var l :| l in InputLinks(inputs, job) && (a == l.inputJob || a in Ancestors(inputs, l.inputJob));
      if a != l.inputJob {
        AncestorsBelow(inputs, l.inputJob);
      }
    }
  }

  /** A job together with its ancestors is closed under input edges. */
  lemma {:induction false} AncestorsClosed(inputs: seq<JobInput>, job: nat)
    requires Acyclic(inputs)
    ensures ClosedUnderInputs(inputs, {job} + Ancestors(inputs, job))
    decreases job
  {
    var a := Ancestors(inputs, job);
    forall l | l in inputs && l.job in {job} + a ensures l.inputJob in a {
      if l.job == job {
        AncestorsViaMembers(inputs, job, InputLinks(inputs, job), l.inputJob);
      } else {
        AncestorsViaMembers(inputs, job, InputLinks(inputs, job), l.job);
        var k :| k in InputLinks(inputs, job) && (l.job == k.inputJob || l.job in Ancestors(inputs, k.inputJob));
        AncestorsClosed(inputs, k.inputJob);
        assert l.job in {k.inputJob} + Ancestors(inputs, k.inputJob);
        assert l.inputJob in {k.inputJob} + Ancestors(inputs, k.inputJob);
        AncestorsViaMembers(inputs, job, InputLinks(inputs, job), l.inputJob);
      }
    }
  }

  /** ... and it is the least such set containing the job. */
  lemma {:induction false} AncestorsLeast(inputs: seq<JobInput>, job: nat, s: set<nat>)
    requires Acyclic(inputs)
    requires job in s && ClosedUnderInputs(inputs, s)
    ensures Ancestors(inputs, job) <= s
    decreases job
  {
    forall a | a in Ancestors(inputs, job) ensures a in s {
      AncestorsViaMembers(inputs, job, InputLinks(inputs, job), a);
      var l :| l in InputLinks(inputs, job) && (a == l.inputJob || a in Ancestors(inputs, l.inputJob));
      if a != l.inputJob {
        AncestorsLeast(inputs, l.inputJob, s);
      }
    }
  }

  /** The input job of an edge is an ancestor of the edge's job. */
  lemma InputIsAncestor(inputs: seq<JobInput>, l: JobInput)
    requires Acyclic(inputs) && l in inputs
    ensures l.inputJob in Ancestors(inputs, l.job)
  {
    AncestorsViaMembers(inputs, l.job, InputLinks(inputs, l.job), l.inputJob);
  }

  /** An ancestor of an ancestor is an ancestor. */
  lemma AncestorsTransitive(inputs: seq<JobInput>, a: nat, b: nat, c: nat)
    requires Acyclic(inputs)
    requires a in Ancestors(inputs, b) && b in Ancestors(inputs, c)
    ensures a in Ancestors(inputs, c)
  {
    AncestorsClosed(inputs, c);
    AncestorsLeast(inputs, b, {c} + Ancestors(inputs, c));
    AncestorsBelow(inputs, b);
    AncestorsBelow(inputs, c);
  }
}

/**
 * Small computations on one job: its type family, elapsed time and its
 * display string, its output location, and the record count of its inputs.
 */
module JobInfo {
  import opened Wrappers
  import opened Text
  import opened Schema

  /** The Python classes that the job types are, with the base classes they inherit from. */
  datatype PyClass =
    | HarvestOAIJobClass | HarvestStaticXMLJobClass | HarvestJobClass
    | TransformJobClass | MergeJobClass | PublishJobClass | AnalysisJobClass
    | CombineJobClass | ObjectClass

  function ClassOf(t: JobType): PyClass
  {
    match t
    case HarvestOAIJob => HarvestOAIJobClass
    case HarvestStaticXMLJob => HarvestStaticXMLJobClass
    case TransformJob => TransformJobClass
    case MergeJob => MergeJobClass
    case PublishJob => PublishJobClass
    case AnalysisJob => AnalysisJobClass
  }

  function ClassName(c: PyClass): string
  {
    match c
    case HarvestOAIJobClass => "HarvestOAIJob"
    case HarvestStaticXMLJobClass => "HarvestStaticXMLJob"
    case HarvestJobClass => "HarvestJob"
    case TransformJobClass => "TransformJob"
    case MergeJobClass => "MergeJob"
    case PublishJobClass => "PublishJob"
    case AnalysisJobClass => "AnalysisJob"
    case CombineJobClass => "CombineJob"
    case ObjectClass => "object"
  }

  /** The single base class of each class; `object` has none. */
  function BaseOf(c: PyClass): Option<PyClass>
  {
    match c
    case HarvestOAIJobClass => Some(HarvestJobClass)
    case HarvestStaticXMLJobClass => Some(HarvestJobClass)
    case ObjectClass => None
    case CombineJobClass => Some(ObjectClass)
    case _ => Some(CombineJobClass)
  }

  function Depth(c: PyClass): nat
  {
    match c
    case ObjectClass => 0
    case CombineJobClass => 1
    case HarvestOAIJobClass => 3
    case HarvestStaticXMLJobClass => 3
    case _ => 2
  }

  /** `inspect.getmro(c)`: the class followed by its bases, up to `object`. */
  function Mro(c: PyClass): seq<PyClass>
    decreases Depth(c)
  {
    match BaseOf(c)
    case None => [c]
    case Some(b) => [c] + Mro(b)
  }

  /** The method resolution order of each job type's class. */
  lemma MroOfType(t: JobType)
    ensures t == HarvestOAIJob || t == HarvestStaticXMLJob ==>
              Mro(ClassOf(t)) == [ClassOf(t), HarvestJobClass, CombineJobClass, ObjectClass]
    ensures !(t == HarvestOAIJob || t == HarvestStaticXMLJob) ==>
              Mro(ClassOf(t)) == [ClassOf(t), CombineJobClass, ObjectClass]
  {
  }

  /**
   * `Job.job_type_family`: for a class that inherits from `HarvestJob` the
   * third class from the end of its method resolution order, otherwise the
   * job type itself. Both harvest types therefore report `HarvestJob`.
   */
  function JobTypeFamily(t: JobType): (r: string)
    ensures r == "HarvestJob" <==> t == HarvestOAIJob || t == HarvestStaticXMLJob
    ensures !(t == HarvestOAIJob || t == HarvestStaticXMLJob) ==> r == TypeName(t)
  {
    MroOfType(t);
    var tree := Mro(ClassOf(t));
    if HarvestJobClass in tree then ClassName(tree[|tree| - 3]) else TypeName(t)
  }

  /** `job.jobtrack_set.first()`: the job's track with the smallest primary key. */
  function TrackOf(tracks: seq<JobTrack>, job: nat): (r: Option<JobTrack>)
    ensures r.Some? ==> r.value in tracks && r.value.job == job
    ensures r.None? <==> forall t :: t in tracks ==> t.job != job
    ensures r.Some? ==> exists i :: 0 <= i < |tracks| && tracks[i] == r.value
                                  && forall k :: 0 <= k < i ==> tracks[k].job != job
  {
    if tracks == [] then None
    else if tracks[0].job == job then Some(tracks[0])
    else
      var rest := TrackOf(tracks[1..], job);
      if rest.Some? then
        var i :| 0 <= i < |tracks[1..]| && tracks[1..][i] == rest.value
                 && forall k :: 0 <= k < i ==> tracks[1..][k].job != job;
        assert tracks[i + 1] == rest.value;
        rest
      else rest
  }

  const SecondsPerDay: nat := 86400

  /**
   * `Job.calc_elapsed`, with times in whole seconds: the time from the track's
   * start until `now` while the job runs, or until the track's finish once it
   * has finished; 0 without a track. The source reads the `.seconds` attribute
   * of the time difference, which drops whole days: the result is the
   * difference modulo one day.
   */
  function CalcElapsed(finished: bool, track: Option<JobTrack>, now: int): (r: nat)
    ensures r < SecondsPerDay
    ensures track.None? ==> r == 0
  {
    match track
    case None => 0
    case Some(t) => if !finished then (now - t.start) % SecondsPerDay else (t.finish - t.start) % SecondsPerDay
  }

  /** The time the elapsed value measures, before `.seconds` drops whole days. */
  function ElapsedSpan(finished: bool, t: JobTrack, now: int): int
  {
    if finished then t.finish - t.start else now - t.start
  }

  /** The elapsed value differs from the true span by whole days, and equals it for spans under a day. */
  lemma CalcElapsedIsSpanModDay(finished: bool, t: JobTrack, now: int)
    ensures (ElapsedSpan(finished, t, now) - CalcElapsed(finished, Some(t), now)) % SecondsPerDay == 0
    ensures 0 <= ElapsedSpan(finished, t, now) < SecondsPerDay ==>
              CalcElapsed(finished, Some(t), now) == ElapsedSpan(finished, t, now)
  {
  }

  /** `Job.elapsed_as_string`: `'%d:%02d:%02d' % (h, m, s)` after two `divmod`s by 60. */
  function ElapsedAsString(elapsed: nat): (r: string)
    ensures |r| >= 7 && r[|r| - 3] == ':' && r[|r| - 6] == ':'
  {
    var minutes, s := elapsed / 60, elapsed % 60;
    var h, m := minutes / 60, minutes % 60;
    NatToString(h) + ":" + Pad2(m) + ":" + Pad2(s)
  }

  /** Reads an `h:mm:ss` string back into seconds. */
  function ParseElapsed(str: string): Option<nat>
  {
    if |str| >= 7 && str[|str| - 3] == ':' && str[|str| - 6] == ':'
       && AllDigits(str[..|str| - 6]) && AllDigits(str[|str| - 5..|str| - 3]) && AllDigits(str[|str| - 2..])
    then Some(DecimalValue(str[..|str| - 6]) * 3600 + DecimalValue(str[|str| - 5..|str| - 3]) * 60
              + DecimalValue(str[|str| - 2..]))
    else None
  }

  /** The display string loses nothing: hours, minutes and seconds add back up to the elapsed time. */
  lemma ElapsedStringRoundTrip(elapsed: nat)
    ensures ParseElapsed(ElapsedAsString(elapsed)) == Some(elapsed)
  {
    var minutes, s := elapsed / 60, elapsed % 60;
    var h, m := minutes / 60, minutes % 60;
    DecimalRoundTrip(h);
    ParseClockFields(ElapsedAsString(elapsed), NatToString(h), Pad2(m), Pad2(s));
    assert elapsed == h * 3600 + m * 60 + s;
  }

  /** The three fields of `h:mm:ss` are found again at their places from the end. */
  lemma ParseClockFields(str: string, hs: string, ms: string, ss: string)
    requires |hs| >= 1 && AllDigits(hs) && |ms| == 2 && AllDigits(ms) && |ss| == 2 && AllDigits(ss)
    requires str == hs + ":" + ms + ":" + ss
    ensures ParseElapsed(str).Some?
    ensures ParseElapsed(str).value == DecimalValue(hs) * 3600 + DecimalValue(ms) * 60 + DecimalValue(ss)
  {
    var n := |hs|;
    assert |str| == n + 6;
    assert str[n] == ':' && str[n + 3] == ':';
    assert str[..|str| - 6] == hs;
    assert str[|str| - 5..|str| - 3] == ms;
    assert str[|str| - 2..] == ss;
  }

  /** `replace('file://', '').rstrip('/')` on a job's output path. */
  function OutputLocation(path: string): string
  {
    RStrip(RemoveAll(path, "file://"), '/')
  }

  /**
   * `Job.job_output_as_filesystem`: the location of the job's output path.
   * A job whose `job_output` is NULL has no path, and the source raises
   * `AttributeError` on `None`.
   */
  function JobOutputAsFilesystem(j: Job): (r: Result<string>)
    ensures r.Err? <==> j.jobOutput.None?
    ensures r.Ok? ==> r.value == OutputLocation(j.jobOutput.value)
  {
    match j.jobOutput
    case None => Err("'NoneType' object has no attribute 'replace'")
    case Some(path) => Ok(OutputLocation(path))
  }

  /** The location never ends in a slash, and what was cut from the end is only slashes. */
  lemma JobOutputNoTrailingSlash(j: Job)
    requires j.jobOutput.Some?
    ensures var r := JobOutputAsFilesystem(j);
            && r.Ok?
            && (|r.value| == 0 || r.value[|r.value| - 1] != '/')
            && r.value <= RemoveAll(j.jobOutput.value, "file://")
  {
  }

  /** A `file://` URI becomes its path, without trailing slashes. */
  lemma JobOutputOfFileUri(j: Job, path: string)
    requires j.jobOutput == Some("file://" + path) && !Occurs(path, "file://")
    ensures JobOutputAsFilesystem(j) == Ok(RStrip(path, '/'))
  {
    var s := "file://" + path;
    assert s[..7] == "file://";
    assert s[7..] == path;
    RemoveAllAbsent(path, "file://");
  }

  /** The sum of the record counts of the input jobs named by `links`. */
  function SumInputCounts(jobs: map<nat, Job>, links: seq<JobInput>): nat
    requires forall l :: l in links ==> l.inputJob in jobs
  {
    if links == [] then 0 else jobs[links[0].inputJob].recordCount + SumInputCounts(jobs, links[1..])
  }

  /**
   * `CombineJob.get_total_input_job_record_count`: the summed record counts of
   * the job's input jobs, or `None` for a job without input jobs.
   */
  function TotalInputRecordCount(db: Db, job: nat): (r: Option<nat>)
    requires WellFormed(db)
    ensures r.None? <==> forall l :: l in db.inputs ==> l.job != job
  {
    var links := InputLinks(db.inputs, job);
    if |links| > 0 then Some(SumInputCounts(db.jobs, links)) else None
  }

  /** Each input job contributes its whole count, and the sum is 0 exactly when every input job has 0 records. */
  lemma {:induction false} SumInputCountsBounds(jobs: map<nat, Job>, links: seq<JobInput>)
    requires forall l :: l in links ==> l.inputJob in jobs
    ensures forall l :: l in links ==> jobs[l.inputJob].recordCount <= SumInputCounts(jobs, links)
    ensures SumInputCounts(jobs, links) == 0 <==> forall l :: l in links ==> jobs[l.inputJob].recordCount == 0
  {
    if links != [] {
      SumInputCountsBounds(jobs, links[1..]);
      assert forall l :: l in links <==> l == links[0] || l in links[1..];
    }
  }

  lemma TotalInputRecordCountBounds(db: Db, job: nat)
    requires WellFormed(db)
    ensures var r := TotalInputRecordCount(db, job);
            r.Some? ==> (forall l :: l in db.inputs && l.job == job ==> db.jobs[l.inputJob].recordCount <= r.value)
                        && (r.value == 0 <==> forall l :: l in db.inputs && l.job == job ==> db.jobs[l.inputJob].recordCount == 0)
  {
    SumInputCountsBounds(db.jobs, InputLinks(db.inputs, job));
  }
}

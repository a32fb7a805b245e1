/**
 * The status machine of jobs and sessions: how a reply of the remote Spark
 * service (Livy) changes a job or a session row, when a job is polled at all,
 * which session counts as the active one, and what submitting a job records.
 * The replies are inputs; the HTTP exchange that produces them is not modelled.
 */
module Lifecycle {
  import opened Wrappers
  import opened Schema
  import JobInfo

  /** A reply to a job or statement query: status code and, for code 200, the reported `state`. */
  datatype Reply = Reply(code: int, state: string)

  /**
   * `Job.refresh_from_livy`: 400 and 404 mark the job `gone`; 200 copies the
   * reported state and marks the job finished when that state is
   * `available`; any other code leaves the job as it was.
   */
  function Poll(j: Job, reply: Reply): (r: Job)
    ensures r.(status := j.status, finished := j.finished) == j
    ensures reply.code == 400 || reply.code == 404 ==> r.status == "gone" && r.finished == j.finished
    ensures reply.code == 200 ==> r.status == reply.state
    ensures r.finished <==> j.finished || (reply.code == 200 && reply.state == "available")
    ensures reply.code != 200 && reply.code != 400 && reply.code != 404 ==> r == j
  {
    if reply.code == 400 || reply.code == 404 then j.(status := "gone")
    else if reply.code == 200 then
      j.(status := reply.state, finished := if reply.state == "available" then true else j.finished)
    else j
  }

  /** The statuses in which `update_status` asks the remote service about a job. */
  const PolledStatuses: set<string> := {"initializing", "waiting", "pending", "starting", "running", "available"}

  /** Whether `update_status` polls the job. */
  predicate Polled(j: Job)
  {
    j.status in PolledStatuses && j.url.Some?
  }

  /**
   * `Job.update_status`, given the reply a poll would get, the number of
   * record rows of the job, its track and the current time: a deleted job is
   * left alone; otherwise the job is polled when `Polled` holds, its record
   * count is filled in when it is still 0 and the job has finished, and its
   * elapsed time is recomputed.
   */
  function UpdateStatus(j: Job, reply: Reply, recordsInDb: nat, track: Option<JobTrack>, now: int): (r: Job)
    ensures j.deleted ==> r == j
    ensures !j.deleted ==> r.elapsed == JobInfo.CalcElapsed(r.finished, track, now)
    ensures r.(status := j.status, finished := j.finished, recordCount := j.recordCount, elapsed := j.elapsed) == j
    ensures !Polled(j) ==> r.status == j.status && r.finished == j.finished
    ensures Polled(j) && !j.deleted ==> r.status == Poll(j, reply).status && r.finished == Poll(j, reply).finished
    ensures r.recordCount != j.recordCount ==> j.recordCount == 0 && r.finished && r.recordCount == recordsInDb
    ensures !j.deleted && j.recordCount == 0 && r.finished ==> r.recordCount == recordsInDb
  {
    if j.deleted then j
    else
      var polled := if Polled(j) then Poll(j, reply) else j;
      var counted := if polled.recordCount == 0 && polled.finished then polled.(recordCount := recordsInDb) else polled;
      counted.(elapsed := JobInfo.CalcElapsed(counted.finished, track, now))
  }

  /** A job marked `gone` is never polled again, so it stays `gone` whatever the service answers. */
  lemma GoneIsFinal(j: Job, reply: Reply, recordsInDb: nat, track: Option<JobTrack>, now: int)
    requires j.status == "gone"
    ensures UpdateStatus(j, reply, recordsInDb, track, now).status == "gone"
    ensures UpdateStatus(j, reply, recordsInDb, track, now).finished == j.finished
  {
  }

  /** Neither polling nor `update_status` ever turns a finished job back into an unfinished one. */
  lemma FinishedIsFinal(j: Job, reply: Reply, recordsInDb: nat, track: Option<JobTrack>, now: int)
    requires j.finished
    ensures Poll(j, reply).finished
    ensures UpdateStatus(j, reply, recordsInDb, track, now).finished
  {
  }

  /**
   * A running job whose poll reports `available` comes out of one
   * `update_status` finished, with its record count filled in (if it was 0).
   */
  lemma AvailableCompletesJob(j: Job, recordsInDb: nat, track: Option<JobTrack>, now: int)
    requires !j.deleted && Polled(j) && j.recordCount == 0
    ensures var r := UpdateStatus(j, Reply(200, "available"), recordsInDb, track, now);
            r.status == "available" && r.finished && r.recordCount == recordsInDb
  {
  }

  /**
   * A reply to a session query, with the `Date` header and the Spark
   * application fields. Each of these is `None` when the reply lacks the key
   * (for the two URLs, also when it lacks `appInfo`), and `Some(v)` when the
   * key is there, with `v` its JSON value: `None` for `null`.
   */
  datatype SessionReply = SessionReply(
    code: int,
    state: string,
    date: string,
    appId: Option<Option<string>>,
    driverLogUrl: Option<Option<string>>,
    sparkUiUrl: Option<Option<string>>)

  /** The session states in which a session is usable. */
  const LiveStates: set<string> := {"starting", "idle", "busy"}

  /**
   * A field that is copied from the reply when the reply has the key, even
   * when its value is `null`, and kept when the key is missing.
   */
  function Overwrite(old_: Option<string>, reported: Option<Option<string>>): (r: Option<string>)
    ensures reported.Some? ==> r == reported.value
    ensures reported.None? ==> r == old_
  {
    match reported
    case Some(v) => v
    case None => old_
  }

  /**
   * `LivySession.refresh_from_livy`: 404 marks the session `gone` (and leaves
   * `active` as it is); 200 copies state, date and whichever application fields
   * the reply has (a `null` one clears the stored value), and marks the session active when the state is live; any
   * other code, 400 included, changes nothing.
   */
  function RefreshSession(s: LivySession, reply: SessionReply): (r: LivySession)
    ensures r.id == s.id && r.sessionId == s.sessionId
    ensures reply.code == 404 ==> r == s.(status := "gone")
    ensures reply.code == 200 ==> r.status == reply.state && r.timestamp == reply.date
    ensures reply.code == 200 ==> (r.active <==> s.active || reply.state in LiveStates)
    ensures reply.code == 200 ==> r.appId == Overwrite(s.appId, reply.appId)
                                  && r.driverLogUrl == Overwrite(s.driverLogUrl, reply.driverLogUrl)
                                  && r.sparkUiUrl == Overwrite(s.sparkUiUrl, reply.sparkUiUrl)
    ensures reply.code != 200 && reply.code != 404 ==> r == s
  {
    if reply.code == 404 then s.(status := "gone")
    else if reply.code == 200 then
      s.(status := reply.state,
         active := if reply.state in LiveStates then true else s.active,
         timestamp := reply.date,
         appId := Overwrite(s.appId, reply.appId),
         driverLogUrl := Overwrite(s.driverLogUrl, reply.driverLogUrl),
         sparkUiUrl := Overwrite(s.sparkUiUrl, reply.sparkUiUrl))
    else s
  }

  /**
   * Until the service assigns an application, a 200 reply carries `null`
   * application fields, and the refresh clears the stored ones.
   */
  lemma NullReplyClears(s: LivySession, reply: SessionReply)
    requires reply.code == 200
    requires reply.appId == Some(None) && reply.driverLogUrl == Some(None) && reply.sparkUiUrl == Some(None)
    ensures var r := RefreshSession(s, reply);
            r.appId.None? && r.driverLogUrl.None? && r.sparkUiUrl.None?
  {
  }

  /** A reply without the application keys keeps the stored application fields. */
  lemma MissingKeysKeep(s: LivySession, reply: SessionReply)
    requires reply.code == 200
    requires reply.appId.None? && reply.driverLogUrl.None? && reply.sparkUiUrl.None?
    ensures var r := RefreshSession(s, reply);
            r.appId == s.appId && r.driverLogUrl == s.driverLogUrl && r.sparkUiUrl == s.sparkUiUrl
  {
  }

  /** A refresh never clears the `active` flag: a dead session stays marked active. */
  lemma RefreshKeepsActive(s: LivySession, reply: SessionReply)
    requires s.active
    ensures RefreshSession(s, reply).active
  {
  }

  /** `LivySession.objects.filter(active=True)`, in table order. */
  function ActiveOf(sessions: seq<LivySession>): (r: seq<LivySession>)
    ensures forall x :: x in r <==> x in sessions && x.active
    ensures |r| <= |sessions|
  {
    if sessions == [] then []
    else if sessions[0].active then [sessions[0]] + ActiveOf(sessions[1..])
    else ActiveOf(sessions[1..])
  }

  /** What `LivySession.get_active_session` returns: `False`, the one session, or the query of several. */
  datatype ActiveSession = NoActive | Single(session: LivySession) | Multiple(sessions: seq<LivySession>)

  /** `LivySession.get_active_session`. */
  function GetActiveSession(sessions: seq<LivySession>): (r: ActiveSession)
    ensures r.NoActive? <==> forall x :: x in sessions ==> !x.active
    ensures r.Single? ==> r.session in sessions && r.session.active
                          && forall x :: x in sessions && x.active ==> x == r.session
    ensures r.Multiple? ==> |r.sessions| > 1 && forall x :: x in r.sessions <==> x in sessions && x.active
  {
    var active := ActiveOf(sessions);
    if |active| == 1 then assert active[0] in active; Single(active[0])
    else if |active| == 0 then NoActive
    else assert active[0] in active; Multiple(active)
  }

  /**
   * `CombineJob._get_active_livy_session`, given the reply to the status
   * query about the single active session (`None` when that query raised):
   * the session, when it is the only active one and the service reports it
   * live; otherwise nothing.
   */
  function ActiveLivySession(sessions: seq<LivySession>, reply: Option<SessionReply>): (r: Option<LivySession>)
    ensures r.Some? <==> |ActiveOf(sessions)| == 1 && reply.Some? && reply.value.code == 200 && reply.value.state in LiveStates
    ensures r.Some? ==> r.value in sessions && r.value.active
  {
    var active := ActiveOf(sessions);
    if |active| == 1 && reply.Some? && reply.value.code == 200 && reply.value.state in LiveStates then
      Some(active[0])
    else None
  }

  /** The session a job is submitted to is the one `get_active_session` reports. */
  lemma ActiveLivySessionIsTheActiveSession(sessions: seq<LivySession>, reply: Option<SessionReply>)
    requires ActiveLivySession(sessions, reply).Some?
    ensures GetActiveSession(sessions) == Single(ActiveLivySession(sessions, reply).value)
  {
  }

  /** The reply to a job submission: the statement id, its state and the `Location` header. */
  datatype SubmitReply = SubmitReply(id: int, state: string, location: string)

  /**
   * `CombineJob.submit_job_to_livy`: the job records the statement id, the
   * reported state and the statement's URL.
   */
  function Submitted(j: Job, reply: SubmitReply): (r: Job)
    ensures r.(livyJobId := j.livyJobId, status := j.status, url := j.url) == j
    ensures r.livyJobId == Some(reply.id) && r.status == reply.state && r.url == Some(reply.location)
  {
    j.(livyJobId := Some(reply.id), status := reply.state, url := Some(reply.location))
  }

  /** A job submitted in a polled state is polled by the next `update_status` (unless it is deleted). */
  lemma SubmittedJobIsPolled(j: Job, sub: SubmitReply, reply: Reply, recordsInDb: nat, track: Option<JobTrack>, now: int)
    requires !j.deleted && sub.state in PolledStatuses
    ensures Polled(Submitted(j, sub))
    ensures UpdateStatus(Submitted(j, sub), reply, recordsInDb, track, now).status == Poll(Submitted(j, sub), reply).status
  {
  }
}

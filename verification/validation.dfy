/**
 * The validation roll-up: each `JobValidation` binding caches the number of
 * validation failures of its job under its scenario, and a job's verdict is
 * the sum over its bindings.
 */
module Validation {
  import opened Wrappers
  import opened Schema

  /**
   * `JobValidation.get_record_validation_failures().count()`: the
   * `RecordValidation` rows of the binding's scenario whose record belongs to
   * the binding's job.
   */
  function RecordedFailures(records: seq<Record>, rvs: seq<RecordValidation>, jv: JobValidation): nat
  {
    if rvs == [] then 0
    else (if rvs[0].scenario == jv.scenario && JobOfRecord(records, rvs[0].record) == Some(jv.job) then 1 else 0)
         + RecordedFailures(records, rvs[1..], jv)
  }

  /** The condition under which `validation_failure_count` counts afresh. */
  predicate Recounts(jv: JobValidation, jobFinished: bool, forceRecount: bool)
  {
    (jv.failureCount.None? && jobFinished) || forceRecount
  }

  /** The binding row after `validation_failure_count`, and the value it returns. */
  datatype CountOutcome = CountOutcome(binding: JobValidation, count: Option<nat>)

  /**
   * `JobValidation.validation_failure_count(force_recount)`: counts the
   * recorded failures and stores them when the count is still unknown and the
   * job has finished, or when a recount is forced; otherwise returns the
   * cached value, which stays `None` while the job runs.
   */
  function FailureCountStep(jv: JobValidation, jobFinished: bool, recorded: nat, forceRecount: bool): (r: CountOutcome)
    ensures r.count == r.binding.failureCount
  {
    if Recounts(jv, jobFinished, forceRecount) then
      var b := jv.(failureCount := Some(recorded));
      CountOutcome(b, b.failureCount)
    else CountOutcome(jv, jv.failureCount)
  }

  /** Only the cached count changes, and it changes only through a recount, to the recorded number. */
  lemma FailureCountStepChanges(jv: JobValidation, jobFinished: bool, recorded: nat, forceRecount: bool)
    ensures var r := FailureCountStep(jv, jobFinished, recorded, forceRecount);
            && r.binding.(failureCount := jv.failureCount) == jv
            && (r.binding != jv ==> Recounts(jv, jobFinished, forceRecount))
            && (Recounts(jv, jobFinished, forceRecount) ==> r.count == Some(recorded))
            && (!Recounts(jv, jobFinished, forceRecount) ==> r.count == jv.failureCount)
  {
  }

  /**
   * Once a call without `force_recount` has run, a second such call for the
   * same job state returns the same value and leaves the row as it is, even
   * if the recorded failures have changed since: the cache is not refreshed.
   */
  lemma FailureCountCached(jv: JobValidation, jobFinished: bool, recorded: nat, recordedLater: nat)
    ensures var first := FailureCountStep(jv, jobFinished, recorded, false);
            FailureCountStep(first.binding, jobFinished, recordedLater, false) == CountOutcome(first.binding, first.count)
  {
  }

  /** The result of `Job.validation_results`. */
  datatype ValidationSummary = ValidationSummary(verdict: bool, failureCount: nat, scenarios: seq<JobValidation>)

  /** What `validation_failure_count()` returns for a binding in the current database. */
  function EffectiveCount(db: Db, jv: JobValidation): Option<nat>
    requires jv.job in db.jobs
  {
    FailureCountStep(jv, db.jobs[jv.job].finished, RecordedFailures(db.records, db.recordValidations, jv), false).count
  }

  /** What a binding adds to the job's failure count: an unknown count adds nothing. */
  function Reported(db: Db, jv: JobValidation): nat
    requires jv.job in db.jobs
  {
    match EffectiveCount(db, jv)
    case None => 0
    case Some(c) => c
  }

  /** The sum of the counts `bindings` report; `None` (and 0) add nothing. */
  function SumCounts(db: Db, bindings: seq<JobValidation>): nat
    requires forall v :: v in bindings ==> v.job in db.jobs
  {
    if bindings == [] then 0
    else Reported(db, bindings[0]) + SumCounts(db, bindings[1..])
  }

  /**
   * `Job.validation_results`: a job without bindings is valid with no
   * failures; otherwise the failure count is the sum over its bindings and the
   * verdict is false exactly when that sum is positive.
   */
  function ValidationResults(db: Db, job: nat): (r: ValidationSummary)
    requires WellFormed(db)
    ensures r.verdict <==> r.failureCount == 0
    ensures r.scenarios == BindingsOf(db.validations, job)
    ensures r.scenarios == [] ==> r.verdict && r.failureCount == 0
  {
    var bindings := BindingsOf(db.validations, job);
    if |bindings| == 0 then ValidationSummary(true, 0, [])
    else
      var total := SumCounts(db, bindings);
      ValidationSummary(!(total > 0), total, bindings)
  }

  lemma {:induction false} SumCountsPositive(db: Db, bindings: seq<JobValidation>)
    requires forall v :: v in bindings ==> v.job in db.jobs
    ensures SumCounts(db, bindings) > 0 <==>
            exists v :: v in bindings && EffectiveCount(db, v).Some? && EffectiveCount(db, v).value > 0
  {
    if bindings != [] {
      SumCountsPositive(db, bindings[1..]);
      assert forall v :: v in bindings <==> v == bindings[0] || v in bindings[1..];
    }
  }

  /** A job is invalid exactly when one of its bindings reports at least one failure. */
  lemma VerdictFalseIffSomeFailure(db: Db, job: nat)
    requires WellFormed(db)
    ensures !ValidationResults(db, job).verdict <==>
            exists v :: v in db.validations && v.job == job && EffectiveCount(db, v).Some? && EffectiveCount(db, v).value > 0
  {
    SumCountsPositive(db, BindingsOf(db.validations, job));
  }

  /** Two binding tables that agree, row by row, on the job and on the count reported. */
  ghost predicate SameReports(db: Db, s: seq<JobValidation>, t: seq<JobValidation>)
  {
    && |s| == |t|
    && (forall k :: 0 <= k < |s| ==> s[k].job == t[k].job && s[k].job in db.jobs)
    && (forall k :: 0 <= k < |s| ==> EffectiveCount(db, s[k]) == EffectiveCount(db, t[k]))
  }

  lemma {:induction false} SameReportsSameSum(db: Db, s: seq<JobValidation>, t: seq<JobValidation>, job: nat)
    requires SameReports(db, s, t)
    ensures SumCounts(db, BindingsOf(s, job)) == SumCounts(db, BindingsOf(t, job))
    ensures |BindingsOf(s, job)| == |BindingsOf(t, job)|
  {
    if s != [] {
      assert SameReports(db, s[1..], t[1..]) by {
        forall k | 0 <= k < |s| - 1 ensures EffectiveCount(db, s[1..][k]) == EffectiveCount(db, t[1..][k]) {
          assert s[1..][k] == s[k + 1] && t[1..][k] == t[k + 1];
        }
      }
      SameReportsSameSum(db, s[1..], t[1..], job);
    }
  }

  /**
   * Filling the cache of one binding during `validation_results` does not
   * change the verdict or the failure count a later call reports.
   */
  lemma CacheFillKeepsResults(db: Db, i: nat, job: nat)
    requires WellFormed(db) && i < |db.validations|
    ensures var v := db.validations[i];
            var step := FailureCountStep(v, db.jobs[v.job].finished, RecordedFailures(db.records, db.recordValidations, v), false);
            var db' := db.(validations := db.validations[i := step.binding]);
            WellFormed(db')
            && ValidationResults(db', job).verdict == ValidationResults(db, job).verdict
            && ValidationResults(db', job).failureCount == ValidationResults(db, job).failureCount
  {
    var v := db.validations[i];
    var step := FailureCountStep(v, db.jobs[v.job].finished, RecordedFailures(db.records, db.recordValidations, v), false);
    var db' := db.(validations := db.validations[i := step.binding]);
    assert WellFormed(db') by {
      forall w | w in db'.validations ensures w.job in db'.jobs {
        var k :| 0 <= k < |db'.validations| && db'.validations[k] == w;
      }
    }
    assert EffectiveCount(db, step.binding) == EffectiveCount(db, v);
    assert SameReports(db, db.validations, db'.validations);
    SameReportsSameSum(db, db.validations, db'.validations, job);
    forall w | w in BindingsOf(db'.validations, job) ensures EffectiveCount(db', w) == EffectiveCount(db, w) {
    }
    SumCountsSameDb(db, db', BindingsOf(db'.validations, job));
  }

  /** The reported counts depend only on the jobs, records and record validations. */
  lemma {:induction false} SumCountsSameDb(db: Db, db': Db, bindings: seq<JobValidation>)
    requires db'.jobs == db.jobs && db'.records == db.records && db'.recordValidations == db.recordValidations
    requires forall v :: v in bindings ==> v.job in db.jobs
    ensures SumCounts(db, bindings) == SumCounts(db', bindings)
  {
    if bindings != [] {
      SumCountsSameDb(db, db', bindings[1..]);
    }
  }

  /** Every binding belongs to a job of the database. */
  predicate BindingsKnown(db: Db)
  {
    forall v :: v in db.validations ==> v.job in db.jobs
  }

  /** The binding row after `validation_failure_count()` (without a forced recount) has run on it. */
  function FillCache(db: Db, v: JobValidation): (r: JobValidation)
    requires v.job in db.jobs
    ensures r.(failureCount := v.failureCount) == v
    ensures EffectiveCount(db, r) == EffectiveCount(db, v)
  {
    FailureCountStep(v, db.jobs[v.job].finished, RecordedFailures(db.records, db.recordValidations, v), false).binding
  }

  /** The binding table after `validation_results` on `job` has filled the caches of the job's bindings. */
  function FillCaches(db: Db, job: nat): (r: seq<JobValidation>)
    requires BindingsKnown(db)
    ensures |r| == |db.validations|
    ensures forall i :: 0 <= i < |r| ==> r[i] == if db.validations[i].job == job then FillCache(db, db.validations[i]) else db.validations[i]
  {
    seq(|db.validations|, i requires 0 <= i < |db.validations| =>
      var v := db.validations[i];
      if v.job == job then FillCache(db, v) else v)
  }

  /**
   * The cache writes of `validation_results` do not change what it reports:
   * a later call returns the same verdict and failure count.
   */
  lemma FillCachesKeepsResults(db: Db, job: nat)
    requires WellFormed(db)
    ensures var db' := db.(validations := FillCaches(db, job));
            && WellFormed(db')
            && ValidationResults(db', job).verdict == ValidationResults(db, job).verdict
            && ValidationResults(db', job).failureCount == ValidationResults(db, job).failureCount
  {
    var filled := FillCaches(db, job);
    var db' := db.(validations := filled);
    assert WellFormed(db') by {
      forall w | w in db'.validations ensures w.job in db'.jobs {
        var k :| 0 <= k < |filled| && filled[k] == w;
      }
    }
    assert SameReports(db, db.validations, filled);
    SameReportsSameSum(db, db.validations, filled, job);
    SumCountsSameDb(db, db', BindingsOf(filled, job));
  }

  /** Adding one more binding to a sum adds the count it reports. */
  lemma {:induction false} SumCountsSnoc(db: Db, bindings: seq<JobValidation>, v: JobValidation)
    requires forall w :: w in bindings ==> w.job in db.jobs
    requires v.job in db.jobs
    ensures SumCounts(db, bindings + [v]) == SumCounts(db, bindings) + Reported(db, v)
    decreases |bindings|
  {
    if bindings != [] {
      assert (bindings + [v])[1..] == bindings[1..] + [v];
      SumCountsSnoc(db, bindings[1..], v);
    } else {
      assert [v][1..] == [];
    }
  }

  /** A job without bindings has no cache to fill. */
  lemma FillCachesNoBindings(db: Db, job: nat)
    requires WellFormed(db) && |BindingsOf(db.validations, job)| == 0
    ensures FillCaches(db, job) == db.validations
  {
    forall i | 0 <= i < |db.validations| ensures db.validations[i].job != job {
      assert db.validations[i] in db.validations;
    }
  }

  /** Writing the filled row at `i` extends the filled prefix by one row. */
  lemma FillPrefixStep<T>(filled: seq<T>, orig: seq<T>, i: nat)
    requires |filled| == |orig| && i < |orig|
    ensures (filled[..i] + orig[i..])[i := filled[i]] == filled[..i + 1] + orig[i + 1..]
    ensures (filled[..i] + orig[i..])[i] == orig[i]
  {
    var cur := filled[..i] + orig[i..];
    assert cur[i] == orig[i];
    var next := cur[i := filled[i]];
    assert |next| == |filled[..i + 1] + orig[i + 1..]|;
    forall k | 0 <= k < |next| ensures next[k] == (filled[..i + 1] + orig[i + 1..])[k] {
      if k < i {
        assert next[k] == filled[k];
      } else if k > i {
        assert next[k] == orig[k];
      }
    }
  }

  /** One step of the `validation_results` sum: a further row adds what it reports when it belongs to the job. */
  lemma SumStep(db: Db, pre: seq<JobValidation>, v: JobValidation, job: nat)
    requires forall w :: w in pre ==> w.job in db.jobs
    requires v.job in db.jobs
    ensures SumCounts(db, BindingsOf(pre + [v], job))
            == SumCounts(db, BindingsOf(pre, job))
               + (if v.job == job then Reported(db, v) else 0)
  {
    BindingsOfSnoc(pre, v, job);
    if v.job == job {
      SumCountsSnoc(db, BindingsOf(pre, job), v);
    } else {
      assert BindingsOf(pre + [v], job) == BindingsOf(pre, job);
    }
  }

  lemma {:induction false} BindingsOfSnoc(s: seq<JobValidation>, v: JobValidation, job: nat)
    ensures BindingsOf(s + [v], job) == BindingsOf(s, job) + (if v.job == job then [v] else [])
    decreases |s|
  {
    if s == [] {
      assert [v][1..] == [];
    } else {
      assert (s + [v])[0] == s[0] && (s + [v])[1..] == s[1..] + [v];
      BindingsOfSnoc(s[1..], v, job);
    }
  }

  /** `SumStep` at row `i` of the binding table. */
  lemma SumStepAt(db: Db, i: nat, job: nat)
    requires BindingsKnown(db) && i < |db.validations|
    ensures var v := db.validations[i];
            SumCounts(db, BindingsOf(db.validations[..i + 1], job))
            == SumCounts(db, BindingsOf(db.validations[..i], job)) + (if v.job == job then Reported(db, v) else 0)
  {
    var v := db.validations[i];
    assert v in db.validations;
    assert db.validations[..i + 1] == db.validations[..i] + [v];
    assert forall w :: w in db.validations[..i] ==> w in db.validations;
    SumStep(db, db.validations[..i], v, job);
  }

  /** Databases that differ only in their binding tables fill and report a binding alike. */
  lemma SameCountsAt(db: Db, db': Db, v: JobValidation)
    requires db'.jobs == db.jobs && db'.records == db.records && db'.recordValidations == db.recordValidations
    requires v.job in db.jobs
    ensures FillCache(db', v) == FillCache(db, v) && Reported(db', v) == Reported(db, v)
  {
  }
}

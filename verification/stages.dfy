/**
 * `Record.get_record_stages`: the versions of one record across the pipeline,
 * found by following input edges up and down and matching `record_id`.
 * Upstream matches are inserted at the front of the list, then the record
 * itself is appended, then downstream matches are appended.
 */
module Stages {
  import opened Wrappers
  import opened Schema

  /**
   * `get_upstream` on a record of job `job`: for each input edge, in table
   * order, the first record of the input job with id `rid` is put at the
   * front, and (unless only the immediate inputs are wanted) its own
   * upstream is searched in turn.
   */
  function UpWalk(db: Db, rid: string, job: nat, only: bool, acc: seq<Record>): seq<Record>
    requires WellFormed(db)
    decreases job, 1
  {
    UpLinks(db, rid, job, InputLinks(db.inputs, job), only, acc)
  }

  function UpLinks(db: Db, rid: string, job: nat, links: seq<JobInput>, only: bool, acc: seq<Record>): seq<Record>
    requires WellFormed(db)
    requires forall l :: l in links ==> l in db.inputs && l.job == job
    decreases job, 0, |links|
  {
    if links == [] then acc
    else
      assert links[0] in links;
      match FirstRecord(db.records, links[0].inputJob, rid)
      case None => UpLinks(db, rid, job, links[1..], only, acc)
      case Some(r) =>
        var front := [r] + acc;
        UpLinks(db, rid, job, links[1..], only, if only then front else UpWalk(db, rid, r.job, only, front))
  }

  /** The jobs above `job`: they shrink along every output edge. */
  function Above(db: Db, job: nat): set<nat>
  {
    set k | k in db.jobs && k > job
  }

  /**
   * `get_downstream` on a record of job `job`: for each job that reads `job`,
   * in table order, the first record of that job with id `rid` is appended
   * and its own downstream is searched in turn.
   */
  function DownWalk(db: Db, rid: string, job: nat, acc: seq<Record>): seq<Record>
    requires WellFormed(db)
    decreases Above(db, job), 1
  {
    DownLinks(db, rid, job, OutputLinks(db.inputs, job), acc)
  }

  function DownLinks(db: Db, rid: string, job: nat, links: seq<JobInput>, acc: seq<Record>): seq<Record>
    requires WellFormed(db)
    requires forall l :: l in links ==> l in db.inputs && l.inputJob == job
    decreases Above(db, job), 0, |links|
  {
    if links == [] then acc
    else
      assert links[0] in links;
      match FirstRecord(db.records, links[0].job, rid)
      case None => DownLinks(db, rid, job, links[1..], acc)
      case Some(r) =>
        assert r.job in Above(db, job) && r.job !in Above(db, r.job);
        DownLinks(db, rid, job, links[1..], DownWalk(db, rid, r.job, acc + [r]))
  }

  /** `record.get_record_stages(input_record_only)`. */
  function RecordStages(db: Db, self: Record, only: bool): seq<Record>
    requires WellFormed(db)
  {
    var up := UpWalk(db, self.recordId, self.job, only, []);
    if only then up else DownWalk(db, self.recordId, self.job, up + [self])
  }

  /** A stored version of the record with id `rid` in a job that feeds `job` (directly or not). */
  ghost predicate UpstreamStage(db: Db, rid: string, job: nat, r: Record)
    requires WellFormed(db)
  {
    r in db.records && r.recordId == rid && r.job in Ancestors(db.inputs, job)
  }

  /** A stored version of the record with id `rid` in a job fed by `job` (directly or not). */
  ghost predicate DownstreamStage(db: Db, rid: string, job: nat, r: Record)
    requires WellFormed(db)
  {
    r in db.records && r.recordId == rid && r.job in db.jobs && job in Ancestors(db.inputs, r.job)
  }

  /** The first `n` entries of `r` are stored versions of `rid` in jobs of `jobs`. */
  ghost predicate StagesIn(db: Db, rid: string, jobs: set<nat>, r: seq<Record>, n: int)
    requires 0 <= n <= |r|
  {
    forall i :: 0 <= i < n ==> r[i] in db.records && r[i].recordId == rid && r[i].job in jobs
  }

  /** `r` is `acc` with stages of `jobs` put in front. */
  ghost predicate PrependsStages(db: Db, rid: string, jobs: set<nat>, acc: seq<Record>, r: seq<Record>)
  {
    |acc| <= |r| && r[|r| - |acc|..] == acc && StagesIn(db, rid, jobs, r, |r| - |acc|)
  }

  lemma PrependsTrans(db: Db, rid: string, jobs: set<nat>, a: seq<Record>, b: seq<Record>, c: seq<Record>)
    requires PrependsStages(db, rid, jobs, a, b) && PrependsStages(db, rid, jobs, b, c)
    ensures PrependsStages(db, rid, jobs, a, c)
  {
    var d := |c| - |b|;
    assert c[d..] == b;
    forall i | 0 <= i < |c| - |a| ensures c[i] in db.records && c[i].recordId == rid && c[i].job in jobs {
      if i >= d {
        assert c[i] == b[i - d];
      }
    }
    assert c[|c| - |a|..] == b[|b| - |a|..];
  }

  lemma PrependsWider(db: Db, rid: string, jobs: set<nat>, wider: set<nat>, a: seq<Record>, b: seq<Record>)
    requires PrependsStages(db, rid, jobs, a, b) && jobs <= wider
    ensures PrependsStages(db, rid, wider, a, b)
  {
  }

  /** The upstream walk puts only upstream stages in front of what it was given. */
  lemma {:induction false} UpWalkStages(db: Db, rid: string, job: nat, only: bool, acc: seq<Record>)
    requires WellFormed(db)
    ensures PrependsStages(db, rid, Ancestors(db.inputs, job), acc, UpWalk(db, rid, job, only, acc))
    decreases job, 1
  {
    UpLinksStages(db, rid, job, InputLinks(db.inputs, job), only, acc);
  }

  lemma {:induction false} UpLinksStages(db: Db, rid: string, job: nat, links: seq<JobInput>, only: bool, acc: seq<Record>)
    requires WellFormed(db)
    requires forall l :: l in links ==> l in db.inputs && l.job == job
    ensures PrependsStages(db, rid, AncestorsVia(db.inputs, job, links), acc, UpLinks(db, rid, job, links, only, acc))
    decreases job, 0, |links|
  {
    if links != [] {
      var l0 := links[0];
      assert l0 in links;
      var rest := links[1..];
      assert forall l :: l in rest ==> l in links;
      var via := AncestorsVia(db.inputs, job, links);
      assert via == {l0.inputJob} + Ancestors(db.inputs, l0.inputJob) + AncestorsVia(db.inputs, job, rest);
      var found := FirstRecord(db.records, l0.inputJob, rid);
      var mid := if found.None? then acc
                 else if only then [found.value] + acc
                 else UpWalk(db, rid, found.value.job, only, [found.value] + acc);
      assert UpLinks(db, rid, job, links, only, acc) == UpLinks(db, rid, job, rest, only, mid);
      assert PrependsStages(db, rid, via, acc, mid) by {
        if found.Some? {
          var front := [found.value] + acc;
          assert PrependsStages(db, rid, via, acc, front) by {
            assert front[1..] == acc;
          }
          if !only {
            UpWalkStages(db, rid, found.value.job, only, front);
            PrependsWider(db, rid, Ancestors(db.inputs, l0.inputJob), via, front, mid);
            PrependsTrans(db, rid, via, acc, front, mid);
          }
        }
      }
      UpLinksStages(db, rid, job, rest, only, mid);
      PrependsWider(db, rid, AncestorsVia(db.inputs, job, rest), via, mid, UpLinks(db, rid, job, rest, only, mid));
      PrependsTrans(db, rid, via, acc, mid, UpLinks(db, rid, job, rest, only, mid));
    }
  }

  /** The downstream walk appends only downstream stages to what it was given. */
  lemma {:induction false} DownWalkStages(db: Db, rid: string, job: nat, acc: seq<Record>)
    requires WellFormed(db)
    ensures var r := DownWalk(db, rid, job, acc);
            acc <= r && forall i :: |acc| <= i < |r| ==> DownstreamStage(db, rid, job, r[i])
    decreases Above(db, job), 1
  {
    DownLinksStages(db, rid, job, OutputLinks(db.inputs, job), acc);
  }

  lemma {:induction false} DownLinksStages(db: Db, rid: string, job: nat, links: seq<JobInput>, acc: seq<Record>)
    requires WellFormed(db)
    requires forall l :: l in links ==> l in db.inputs && l.inputJob == job
    ensures var r := DownLinks(db, rid, job, links, acc);
            acc <= r && forall i :: |acc| <= i < |r| ==> DownstreamStage(db, rid, job, r[i])
    decreases Above(db, job), 0, |links|
  {
    if links != [] {
      var l0 := links[0];
      assert l0 in links;
      assert forall l :: l in links[1..] ==> l in links;
      match FirstRecord(db.records, l0.job, rid)
      case None =>
        DownLinksStages(db, rid, job, links[1..], acc);
      case Some(m) =>
        assert m.job in Above(db, job) && m.job !in Above(db, m.job);
        var back := acc + [m];
        var mid := DownWalk(db, rid, m.job, back);
        DownWalkStages(db, rid, m.job, back);
        DownLinksStages(db, rid, job, links[1..], mid);
        InputIsAncestor(db.inputs, l0);
        var r := DownLinks(db, rid, job, links, acc);
        forall i | |acc| <= i < |r| ensures DownstreamStage(db, rid, job, r[i]) {
          if i < |mid| {
            if i == |acc| {
              assert r[i] == m;
            } else {
              assert r[i] == mid[i];
              AncestorsTransitive(db.inputs, job, m.job, r[i].job);
            }
          }
        }
    }
  }

  /**
   * All the stages of a record: its upstream versions (each in a job that
   * feeds the record's job), the record itself, then its downstream versions
   * (each in a job fed by the record's job); every stage has the record's id.
   */
  lemma RecordStagesShape(db: Db, self: Record)
    requires WellFormed(db) && self.job in db.jobs
    ensures var s := RecordStages(db, self, false);
            exists k :: 0 <= k < |s| && s[k] == self
              && (forall i :: 0 <= i < k ==> UpstreamStage(db, self.recordId, self.job, s[i]) && s[i].job < self.job)
              && (forall i :: k < i < |s| ==> DownstreamStage(db, self.recordId, self.job, s[i]) && s[i].job > self.job)
              && (forall i :: 0 <= i < |s| ==> s[i].recordId == self.recordId)
  {
    var rid := self.recordId;
    var up := UpWalk(db, rid, self.job, false, []);
    UpWalkStages(db, rid, self.job, false, []);
    DownWalkStages(db, rid, self.job, up + [self]);
    AncestorsBelow(db.inputs, self.job);
    var s := RecordStages(db, self, false);
    var k := |up|;
    assert s[k] == self;
    forall i | k < i < |s| ensures s[i].job > self.job {
      AncestorsBelow(db.inputs, s[i].job);
    }
  }

  /** The first version of `rid` in `job`, when there is one, is in `r`. */
  ghost predicate MatchIn(records: seq<Record>, job: nat, rid: string, r: seq<Record>)
  {
    FirstRecord(records, job, rid).Some? ==> FirstRecord(records, job, rid).value in r
  }

  /** Every input job of `x`'s job has its first version of `rid` (if any) in `r`. */
  ghost predicate InputMatchesIn(db: Db, rid: string, x: Record, r: seq<Record>)
  {
    forall l :: l in db.inputs && l.job == x.job ==> MatchIn(db.records, l.inputJob, rid, r)
  }

  /** Every job that reads `x`'s job has its first version of `rid` (if any) in `r`. */
  ghost predicate OutputMatchesIn(db: Db, rid: string, x: Record, r: seq<Record>)
  {
    forall l :: l in db.inputs && l.inputJob == x.job ==> MatchIn(db.records, l.job, rid, r)
  }

  lemma InputMatchesGrow(db: Db, rid: string, x: Record, r: seq<Record>, r': seq<Record>)
    requires InputMatchesIn(db, rid, x, r) && forall y :: y in r ==> y in r'
    ensures InputMatchesIn(db, rid, x, r')
  {
  }

  lemma OutputMatchesGrow(db: Db, rid: string, x: Record, r: seq<Record>, r': seq<Record>)
    requires OutputMatchesIn(db, rid, x, r) && forall y :: y in r ==> y in r'
    ensures OutputMatchesIn(db, rid, x, r')
  {
  }

  lemma SuffixMembers(acc: seq<Record>, r: seq<Record>)
    requires |acc| <= |r| && r[|r| - |acc|..] == acc
    ensures forall y :: y in acc ==> y in r
  {
    forall y | y in acc ensures y in r {
      var i :| 0 <= i < |acc| && acc[i] == y;
      assert r[|r| - |acc| + i] == y;
    }
  }

  lemma TailMembers(b: seq<Record>, c: seq<Record>, i: nat, j: nat)
    requires b <= c && i <= j <= |b|
    ensures forall y :: y in b[j..] ==> y in c[i..]
    ensures forall y :: y in c[|b|..] ==> y in c[i..]
  {
    forall y | y in b[j..] ensures y in c[i..] {
      var k :| j <= k < |b| && b[k] == y;
      assert c[i..][k - i] == y;
    }
    forall y | y in c[|b|..] ensures y in c[i..] {
      var k :| |b| <= k < |c| && c[k] == y;
      assert c[i..][k - i] == y;
    }
  }

  /** The upstream walk over `links` finds the first version in the input job of each link. */
  lemma {:induction false} UpLinksFinds(db: Db, rid: string, job: nat, links: seq<JobInput>, acc: seq<Record>)
    requires WellFormed(db)
    requires forall l :: l in links ==> l in db.inputs && l.job == job
    ensures forall l :: l in links ==> MatchIn(db.records, l.inputJob, rid, UpLinks(db, rid, job, links, false, acc))
    decreases |links|
  {
    if links != [] {
      var l0, rest := links[0], links[1..];
      assert l0 in links;
      assert forall l :: l in rest ==> l in links;
      assert forall l :: l in links ==> l == l0 || l in rest;
      var found := FirstRecord(db.records, l0.inputJob, rid);
      if found.None? {
        assert UpLinks(db, rid, job, links, false, acc) == UpLinks(db, rid, job, rest, false, acc);
        UpLinksFinds(db, rid, job, rest, acc);
      } else {
        var front := [found.value] + acc;
        var mid := UpWalk(db, rid, found.value.job, false, front);
        var r := UpLinks(db, rid, job, rest, false, mid);
        assert UpLinks(db, rid, job, links, false, acc) == r;
        UpLinksFinds(db, rid, job, rest, mid);
        UpWalkStages(db, rid, found.value.job, false, front);
        assert mid[|mid| - |front|] == found.value;
        UpLinksStages(db, rid, job, rest, false, mid);
        SuffixMembers(mid, r);
        assert MatchIn(db.records, l0.inputJob, rid, r);
      }
    }
  }

  /** The upstream walk from `job` finds the first version in every input job of `job`. */
  lemma UpWalkFinds(db: Db, rid: string, job: nat, acc: seq<Record>)
    requires WellFormed(db)
    ensures forall l :: l in db.inputs && l.job == job ==> MatchIn(db.records, l.inputJob, rid, UpWalk(db, rid, job, false, acc))
  {
    UpLinksFinds(db, rid, job, InputLinks(db.inputs, job), acc);
  }

  /**
   * What the upstream walk adds is closed: each version it puts in front has
   * the first versions of its own input jobs in the result too.
   */
  lemma {:induction false} UpWalkClosed(db: Db, rid: string, job: nat, acc: seq<Record>)
    requires WellFormed(db)
    ensures var r := UpWalk(db, rid, job, false, acc);
            |acc| <= |r| && forall i :: 0 <= i < |r| - |acc| ==> InputMatchesIn(db, rid, r[i], r)
    decreases job, 1
  {
    UpLinksClosed(db, rid, job, InputLinks(db.inputs, job), acc);
  }

  lemma {:induction false} UpLinksClosed(db: Db, rid: string, job: nat, links: seq<JobInput>, acc: seq<Record>)
    requires WellFormed(db)
    requires forall l :: l in links ==> l in db.inputs && l.job == job
    ensures var r := UpLinks(db, rid, job, links, false, acc);
            |acc| <= |r| && forall i :: 0 <= i < |r| - |acc| ==> InputMatchesIn(db, rid, r[i], r)
    decreases job, 0, |links|
  {
    UpLinksStages(db, rid, job, links, false, acc);
    if links != [] {
      var l0, rest := links[0], links[1..];
      assert l0 in links;
      assert forall l :: l in rest ==> l in links;
      var found := FirstRecord(db.records, l0.inputJob, rid);
      if found.None? {
        UpLinksClosed(db, rid, job, rest, acc);
      } else {
        var m := found.value;
        var front := [m] + acc;
        var mid := UpWalk(db, rid, m.job, false, front);
        var r := UpLinks(db, rid, job, rest, false, mid);
        assert UpLinks(db, rid, job, links, false, acc) == r;
        UpWalkClosed(db, rid, m.job, front);
        UpWalkFinds(db, rid, m.job, front);
        UpWalkStages(db, rid, m.job, false, front);
        UpLinksClosed(db, rid, job, rest, mid);
        UpLinksStages(db, rid, job, rest, false, mid);
        SuffixMembers(mid, r);
        var d := |r| - |mid|;
        forall i | 0 <= i < |r| - |acc| ensures InputMatchesIn(db, rid, r[i], r) {
          if i >= d {
            assert r[i] == mid[i - d];
            if i - d == |mid| - |front| {
              assert mid[i - d] == front[0] == m;
            }
            InputMatchesGrow(db, rid, r[i], mid, r);
          }
        }
      }
    }
  }

  /** The downstream walk over `links` finds the first version in the reading job of each link. */
  lemma {:induction false} DownLinksFinds(db: Db, rid: string, job: nat, links: seq<JobInput>, acc: seq<Record>)
    requires WellFormed(db)
    requires forall l :: l in links ==> l in db.inputs && l.inputJob == job
    ensures var r := DownLinks(db, rid, job, links, acc);
            acc <= r && forall l :: l in links ==> MatchIn(db.records, l.job, rid, r[|acc|..])
    decreases |links|
  {
    DownLinksStages(db, rid, job, links, acc);
    if links != [] {
      var l0, rest := links[0], links[1..];
      assert l0 in links;
      assert forall l :: l in rest ==> l in links;
      var found := FirstRecord(db.records, l0.job, rid);
      var r := DownLinks(db, rid, job, links, acc);
      if found.None? {
        DownLinksFinds(db, rid, job, rest, acc);
      } else {
        var m := found.value;
        assert m.job in Above(db, job) && m.job !in Above(db, m.job);
        var back := acc + [m];
        var mid := DownWalk(db, rid, m.job, back);
        assert r == DownLinks(db, rid, job, rest, mid);
        DownWalkStages(db, rid, m.job, back);
        DownLinksFinds(db, rid, job, rest, mid);
        TailMembers(mid, r, |acc|, |acc|);
        assert r[|acc|] == m;
        assert m in r[|acc|..];
      }
      assert forall l :: l in links ==> l == l0 || l in rest;
    }
  }

  /** The downstream walk from `job` appends the first version in every job that reads `job`. */
  lemma DownWalkFinds(db: Db, rid: string, job: nat, acc: seq<Record>)
    requires WellFormed(db)
    ensures var r := DownWalk(db, rid, job, acc);
            acc <= r && forall l :: l in db.inputs && l.inputJob == job ==> MatchIn(db.records, l.job, rid, r[|acc|..])
  {
    DownLinksFinds(db, rid, job, OutputLinks(db.inputs, job), acc);
  }

  /**
   * What the downstream walk appends is closed: each version it appends has
   * the first versions of the jobs that read its job appended too.
   */
  lemma {:induction false} DownWalkClosed(db: Db, rid: string, job: nat, acc: seq<Record>)
    requires WellFormed(db)
    ensures var r := DownWalk(db, rid, job, acc);
            acc <= r && forall i :: |acc| <= i < |r| ==> OutputMatchesIn(db, rid, r[i], r[|acc|..])
    decreases Above(db, job), 1
  {
    DownLinksClosed(db, rid, job, OutputLinks(db.inputs, job), acc);
  }

  lemma {:induction false} DownLinksClosed(db: Db, rid: string, job: nat, links: seq<JobInput>, acc: seq<Record>)
    requires WellFormed(db)
    requires forall l :: l in links ==> l in db.inputs && l.inputJob == job
    ensures var r := DownLinks(db, rid, job, links, acc);
            acc <= r && forall i :: |acc| <= i < |r| ==> OutputMatchesIn(db, rid, r[i], r[|acc|..])
    decreases Above(db, job), 0, |links|
  {
    DownLinksStages(db, rid, job, links, acc);
    if links != [] {
      var l0, rest := links[0], links[1..];
      assert l0 in links;
      assert forall l :: l in rest ==> l in links;
      var found := FirstRecord(db.records, l0.job, rid);
      if found.None? {
        DownLinksClosed(db, rid, job, rest, acc);
      } else {
        var m := found.value;
        assert m.job in Above(db, job) && m.job !in Above(db, m.job);
        var back := acc + [m];
        var mid := DownWalk(db, rid, m.job, back);
        var r := DownLinks(db, rid, job, rest, mid);
        assert DownLinks(db, rid, job, links, acc) == r;
        DownWalkClosed(db, rid, m.job, back);
        DownWalkFinds(db, rid, m.job, back);
        DownLinksClosed(db, rid, job, rest, mid);
        TailMembers(mid, r, |acc|, |back|);
        TailMembers(back, mid, |back|, |back|);
        forall i | |acc| <= i < |r| ensures OutputMatchesIn(db, rid, r[i], r[|acc|..]) {
          if i >= |mid| {
            OutputMatchesGrow(db, rid, r[i], r[|mid|..], r[|acc|..]);
          } else if i == |acc| {
            assert r[i] == mid[i] == back[i] == m;
            OutputMatchesGrow(db, rid, r[i], mid[|back|..], r[|acc|..]);
          } else {
            assert r[i] == mid[i];
            OutputMatchesGrow(db, rid, r[i], mid[|back|..], r[|acc|..]);
          }
        }
      }
    }
  }

  /**
   * The stages are complete: the versions before the record include the first
   * version in every input job of the record's job and of each of those
   * versions' jobs, and the versions after it include the first version in
   * every job that reads the record's job and each of those versions' jobs.
   * With `RecordStagesShape` this fixes which versions the list holds.
   */
  lemma RecordStagesComplete(db: Db, self: Record)
    requires WellFormed(db)
    ensures var s := RecordStages(db, self, false);
            var k := |UpWalk(db, self.recordId, self.job, false, [])|;
            && k < |s| && s[k] == self
            && (forall i :: 0 <= i <= k ==> InputMatchesIn(db, self.recordId, s[i], s[..k]))
            && (forall i :: k <= i < |s| ==> OutputMatchesIn(db, self.recordId, s[i], s[k + 1..]))
  {
    var rid := self.recordId;
    var up := UpWalk(db, rid, self.job, false, []);
    var k := |up|;
    UpWalkClosed(db, rid, self.job, []);
    UpWalkFinds(db, rid, self.job, []);
    var s := RecordStages(db, self, false);
    DownWalkClosed(db, rid, self.job, up + [self]);
    DownWalkFinds(db, rid, self.job, up + [self]);
    assert s[..k] == up;
    assert s[k] == self;
  }

  /**
   * With `input_record_only`, the result is exactly the first matching record
   * of each input job of the record's job, and never the record itself.
   */
  lemma ImmediateStages(db: Db, self: Record)
    requires WellFormed(db) && self.job in db.jobs
    ensures var s := RecordStages(db, self, true);
            (forall r :: r in s <==> exists l :: l in db.inputs && l.job == self.job
                                                && FirstRecord(db.records, l.inputJob, self.recordId) == Some(r))
            && self !in s
  {
    var links := InputLinks(db.inputs, self.job);
    ImmediateLinks(db, self.recordId, self.job, links, []);
    UpWalkStages(db, self.recordId, self.job, true, []);
    AncestorsBelow(db.inputs, self.job);
  }

  lemma {:induction false} ImmediateLinks(db: Db, rid: string, job: nat, links: seq<JobInput>, acc: seq<Record>)
    requires WellFormed(db)
    requires forall l :: l in links ==> l in db.inputs && l.job == job
    ensures forall r :: r in UpLinks(db, rid, job, links, true, acc) <==>
              r in acc || exists l :: l in links && FirstRecord(db.records, l.inputJob, rid) == Some(r)
    decreases |links|
  {
    if links != [] {
      assert links[0] in links;
      assert forall l :: l in links <==> l == links[0] || l in links[1..];
      match FirstRecord(db.records, links[0].inputJob, rid)
      case None =>
        ImmediateLinks(db, rid, job, links[1..], acc);
      case Some(m) =>
        ImmediateLinks(db, rid, job, links[1..], [m] + acc);
    }
  }

  /** A diamond: job 1 feeds jobs 2 and 3, which both feed the merge job 4; each job holds a version of `x`. */
  function DiamondJob(id: nat): Job
  {
    Job(id, "", "", if id == 4 then MergeJob else TransformJob, 0, "available", true, None, None, 1, 0, false, None)
  }

  function DiamondVersion(job: nat): Record
  {
    Record(10 + job, job, "x", true, false, None)
  }

  function DiamondInputs(): seq<JobInput>
  {
    [JobInput(2, 1), JobInput(3, 1), JobInput(4, 2), JobInput(4, 3)]
  }

  function DiamondRecords(): seq<Record>
  {
    [DiamondVersion(1), DiamondVersion(2), DiamondVersion(3), DiamondVersion(4)]
  }

  function Diamond(): Db
  {
    Db(map[1 := DiamondJob(1), 2 := DiamondJob(2), 3 := DiamondJob(3), 4 := DiamondJob(4)],
       DiamondInputs(), [], [], [], [], DiamondRecords(),
       map[0 := Organization(0, "", false)],
       map[0 := RecordGroup(0, 0, "", None, false)],
       {}, [])
  }

  lemma DiamondWellFormed(db: Db)
    requires db == Diamond()
    ensures WellFormed(db)
  {
    assert forall l :: l in db.inputs ==> l.inputJob < l.job && l.job in db.jobs && l.inputJob in db.jobs;
    assert forall r :: r in db.records ==> r.job in db.jobs;
  }

  lemma DiamondInputLinks(inputs: seq<JobInput>)
    requires inputs == DiamondInputs()
    ensures InputLinks(inputs, 1) == []
    ensures InputLinks(inputs, 2) == [JobInput(2, 1)]
    ensures InputLinks(inputs, 3) == [JobInput(3, 1)]
    ensures InputLinks(inputs, 4) == [JobInput(4, 2), JobInput(4, 3)]
    ensures OutputLinks(inputs, 4) == []
  {
    assert inputs[1..] == [JobInput(3, 1), JobInput(4, 2), JobInput(4, 3)];
    assert inputs[1..][1..] == [JobInput(4, 2), JobInput(4, 3)];
    assert inputs[1..][1..][1..] == [JobInput(4, 3)];
    assert inputs[1..][1..][1..][1..] == [];
  }

  lemma DiamondFirstRecord(records: seq<Record>, k: nat)
    requires records == DiamondRecords() && 1 <= k <= 4
    ensures FirstRecord(records, k, "x") == Some(DiamondVersion(k))
  {
    assert records[1..] == [DiamondVersion(2), DiamondVersion(3), DiamondVersion(4)];
    assert records[1..][1..] == [DiamondVersion(3), DiamondVersion(4)];
    assert records[1..][1..][1..] == [DiamondVersion(4)];
  }

  /**
   * A database whose jobs 2 and 3 both read job 1, whose job 4 reads 2 and
   * then 3 and is read by no job, and in which `h`, `a` and `b` are the first
   * versions of `rid` in jobs 1, 2 and 3.
   */
  ghost predicate DiamondShaped(db: Db, rid: string, h: Record, a: Record, b: Record)
  {
    && WellFormed(db)
    && InputLinks(db.inputs, 1) == []
    && InputLinks(db.inputs, 2) == [JobInput(2, 1)]
    && InputLinks(db.inputs, 3) == [JobInput(3, 1)]
    && InputLinks(db.inputs, 4) == [JobInput(4, 2), JobInput(4, 3)]
    && OutputLinks(db.inputs, 4) == []
    && FirstRecord(db.records, 1, rid) == Some(h) && h.job == 1
    && FirstRecord(db.records, 2, rid) == Some(a) && a.job == 2
    && FirstRecord(db.records, 3, rid) == Some(b) && b.job == 3
  }

  /** The concrete diamond has that shape. */
  lemma DiamondIsDiamondShaped(db: Db)
    requires db == Diamond()
    ensures DiamondShaped(db, "x", DiamondVersion(1), DiamondVersion(2), DiamondVersion(3))
  {
    DiamondWellFormed(db);
    DiamondInputLinks(db.inputs);
    DiamondFirstRecord(db.records, 1);
    DiamondFirstRecord(db.records, 2);
    DiamondFirstRecord(db.records, 3);
  }

  /** The walk from job 1 adds nothing: job 1 reads no job. */
  lemma DiamondFromRoot(db: Db, rid: string, h: Record, a: Record, b: Record, acc: seq<Record>)
    requires DiamondShaped(db, rid, h, a, b)
    ensures WellFormed(db)
    ensures UpWalk(db, rid, 1, false, acc) == acc
  {
    assert UpLinks(db, rid, 1, [], false, acc) == acc;
  }

  /** The walk from an inner job `k`, whose version `x` is in front, puts `h` before it. */
  lemma DiamondFromInner(db: Db, rid: string, h: Record, a: Record, b: Record, k: nat, x: Record, acc: seq<Record>)
    requires DiamondShaped(db, rid, h, a, b) && InputLinks(db.inputs, k) == [JobInput(k, 1)]
    ensures WellFormed(db)
    ensures UpWalk(db, rid, k, false, [x] + acc) == [h, x] + acc
  {
    var links := [JobInput(k, 1)];
    var front := [h] + ([x] + acc);
    assert front == [h, x] + acc;
    DiamondFromRoot(db, rid, h, a, b, front);
    assert UpWalk(db, rid, h.job, false, front) == front;
    assert UpLinks(db, rid, k, links[1..], false, front) == front;
    assert links[0].inputJob == 1 && links[0] in links;
    assert UpLinks(db, rid, k, links, false, [x] + acc)
        == UpLinks(db, rid, k, links[1..], false, UpWalk(db, rid, h.job, false, front));
  }

  /** The second input edge of job 4 adds the branch through job 3 in front. */
  lemma DiamondSecondBranch(db: Db, rid: string, h: Record, a: Record, b: Record)
    requires DiamondShaped(db, rid, h, a, b)
    ensures WellFormed(db)
    ensures UpLinks(db, rid, 4, [JobInput(4, 3)], false, [h, a]) == [h, b, h, a]
  {
    DiamondFromInner(db, rid, h, a, b, 3, b, [h, a]);
    var links := [JobInput(4, 3)];
    assert UpLinks(db, rid, 4, links[1..], false, [h, b, h, a]) == [h, b, h, a];
  }

  /** The walk from job 4 finds the branch through job 2, then puts the branch through job 3 in front. */
  lemma DiamondFromMerge(db: Db, rid: string, h: Record, a: Record, b: Record)
    requires DiamondShaped(db, rid, h, a, b)
    ensures WellFormed(db)
    ensures UpWalk(db, rid, 4, false, []) == [h, b, h, a]
  {
    var links := [JobInput(4, 2), JobInput(4, 3)];
    DiamondFromInner(db, rid, h, a, b, 2, a, []);
    assert UpWalk(db, rid, a.job, false, [a] + []) == [h, a];
    DiamondSecondBranch(db, rid, h, a, b);
    assert links[1..] == [JobInput(4, 3)];
    assert links[0].inputJob == 2 && links[0] in links;
    assert UpLinks(db, rid, 4, links, false, [])
        == UpLinks(db, rid, 4, links[1..], false, UpWalk(db, rid, a.job, false, [a] + []));
  }

  /**
   * The list is not ordered from first created to last, and a version can
   * occur twice: for a record `m` of the merge job of a diamond, the version
   * of the shared input job is found once through each branch, and the branch
   * searched last comes first.
   */
  lemma DiamondStages(db: Db, rid: string, h: Record, a: Record, b: Record, m: Record)
    requires DiamondShaped(db, rid, h, a, b) && m.job == 4 && m.recordId == rid
    ensures WellFormed(db)
    ensures RecordStages(db, m, false) == [h, b, h, a, m]
  {
    DiamondFromMerge(db, rid, h, a, b);
    var up := UpWalk(db, rid, m.job, false, []);
    assert up + [m] == [h, b, h, a, m];
    assert DownLinks(db, rid, 4, [], up + [m]) == up + [m];
    assert DownWalk(db, rid, m.job, up + [m]) == up + [m];
  }

  /** The list `get_record_stages` fills through its nested functions. */
  class StageList {
    var items: seq<Record>

    constructor ()
      ensures items == []
    {
      items := [];
    }
  }

  /** `get_upstream`. */
  method GetUpstream(db: Db, rid: string, job: nat, only: bool, stages: StageList)
    requires WellFormed(db)
    modifies stages
    ensures stages.items == UpWalk(db, rid, job, only, old(stages.items))
    decreases job
  {
    var links := InputLinks(db.inputs, job);
    var i := 0;
    while i < |links|
      invariant 0 <= i <= |links|
      invariant UpLinks(db, rid, job, links[i..], only, stages.items) == UpWalk(db, rid, job, only, old(stages.items))
    {
      assert links[i] in links;
      assert links[i..][1..] == links[i + 1..];
      var found := FirstRecord(db.records, links[i].inputJob, rid);
      if found.Some? {
        stages.items := [found.value] + stages.items;
        if !only {
          GetUpstream(db, rid, found.value.job, only, stages);
        }
      }
      i := i + 1;
    }
  }

  /** `get_downstream`. */
  method GetDownstream(db: Db, rid: string, job: nat, stages: StageList)
    requires WellFormed(db)
    modifies stages
    ensures stages.items == DownWalk(db, rid, job, old(stages.items))
    decreases Above(db, job)
  {
    var links := OutputLinks(db.inputs, job);
    var i := 0;
    while i < |links|
      invariant 0 <= i <= |links|
      invariant DownLinks(db, rid, job, links[i..], stages.items) == DownWalk(db, rid, job, old(stages.items))
    {
      assert links[i] in links;
      assert links[i..][1..] == links[i + 1..];
      var found := FirstRecord(db.records, links[i].job, rid);
      if found.Some? {
        stages.items := stages.items + [found.value];
        assert found.value.job in Above(db, job) && found.value.job !in Above(db, found.value.job);
        GetDownstream(db, rid, found.value.job, stages);
      }
      i := i + 1;
    }
  }

  /** `Record.get_record_stages`. */
  method GetRecordStages(db: Db, self: Record, only: bool) returns (result: seq<Record>)
    requires WellFormed(db)
    ensures result == RecordStages(db, self, only)
  {
    var stages := new StageList();
    GetUpstream(db, self.recordId, self.job, only, stages);
    if !only {
      stages.items := stages.items + [self];
      GetDownstream(db, self.recordId, self.job, stages);
    }
    result := stages.items;
  }
}

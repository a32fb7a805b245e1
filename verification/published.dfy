/**
 * Published records: the grouping of publish jobs by the publish set id of
 * their record group (`PublishedRecords.__init__`), and the bulk update of
 * `unique_published` (`PublishedRecords.update_published_uniqueness`).
 */
module Published {
  import opened Wrappers
  import opened Schema

  /** The publish set id of the record group a publish link points to. */
  function SetOf(db: Db, p: JobPublish): Option<string>
    requires p.recordGroup in db.groups
  {
    db.groups[p.recordGroup].publishSetId
  }

  predicate LinksKnown(db: Db, links: seq<JobPublish>)
  {
    forall p :: p in links ==> p.recordGroup in db.groups
  }

  /** The dict `sets` after the links have been visited in order. */
  function GroupBySet(db: Db, links: seq<JobPublish>): map<Option<string>, seq<nat>>
    requires LinksKnown(db, links)
    decreases |links|
  {
    if links == [] then map[]
    else
      var before := GroupBySet(db, links[..|links| - 1]);
      var last := links[|links| - 1];
      var key := SetOf(db, last);
      before[key := (if key in before then before[key] else []) + [last.job]]
  }

  /** The publish jobs of set `key`, in link order: the reference the grouping is checked against. */
  function JobsInSet(db: Db, links: seq<JobPublish>, key: Option<string>): seq<nat>
    requires LinksKnown(db, links)
    decreases |links|
  {
    if links == [] then []
    else
      var last := links[|links| - 1];
      JobsInSet(db, links[..|links| - 1], key) + (if SetOf(db, last) == key then [last.job] else [])
  }

  /**
   * The grouping has one key per publish set id that some link reaches
   * (`None` included), and each key lists exactly the jobs of its links, in
   * link order.
   */
  lemma {:induction false} GroupBySetContent(db: Db, links: seq<JobPublish>, key: Option<string>)
    requires LinksKnown(db, links)
    ensures key in GroupBySet(db, links) <==> exists p :: p in links && SetOf(db, p) == key
    ensures key in GroupBySet(db, links) ==> GroupBySet(db, links)[key] == JobsInSet(db, links, key)
    ensures key !in GroupBySet(db, links) ==> JobsInSet(db, links, key) == []
    decreases |links|
  {
    if links != [] {
      var init := links[..|links| - 1];
      assert forall p :: p in init ==> p in links;
      GroupBySetContent(db, init, key);
      assert forall p :: p in links <==> p in init || p == links[|links| - 1];
    }
  }

  /** `PublishedRecords`: the fields that `__init__` computes from the database. */
  class PublishedRecords {
    var recordGroup: nat
    var publishLinks: seq<JobPublish>
    var sets: map<Option<string>, seq<nat>>

    /** `PublishedRecords.__init__`: reads every publish link and groups its job by publish set. */
    constructor (db: Db)
      requires WellFormed(db)
      ensures recordGroup == 0 && publishLinks == db.publishes
      ensures sets == GroupBySet(db, db.publishes)
    {
      recordGroup := 0;
      publishLinks := db.publishes;
      var grouped: map<Option<string>, seq<nat>> := map[];
      var i := 0;
      while i < |db.publishes|
        invariant 0 <= i <= |db.publishes|
        invariant grouped == GroupBySet(db, db.publishes[..i])
      {
        var link := db.publishes[i];
        assert link in db.publishes;
        var key := db.groups[link.recordGroup].publishSetId;
        if key !in grouped {
          grouped := grouped[key := []];
        }
        grouped := grouped[key := grouped[key] + [link.job]];
        assert db.publishes[..i + 1][..i] == db.publishes[..i];
        i := i + 1;
      }
      assert db.publishes[..i] == db.publishes;
      sets := grouped;
    }
  }

  /** Whether a record row is published with id `rid`. */
  predicate PublishedAs(x: Record, rid: string)
  {
    x.published && x.recordId == rid
  }

  /** The number of published records with record id `rid`. */
  function PublishedCount(records: seq<Record>, rid: string): nat
    decreases |records|
  {
    if records == [] then 0
    else PublishedCount(records[..|records| - 1], rid) + (if PublishedAs(records[|records| - 1], rid) then 1 else 0)
  }

  /** `update_published_uniqueness` applied to one row of `records`. */
  function MarkUnique(records: seq<Record>, x: Record): Record
  {
    if x.published then x.(uniquePublished := Some(PublishedCount(records, x.recordId) <= 1)) else x
  }

  /** The record table after `update_published_uniqueness`. */
  function Uniqueness(records: seq<Record>): (r: seq<Record>)
    ensures |r| == |records|
    ensures forall i :: 0 <= i < |r| ==> r[i] == MarkUnique(records, records[i])
  {
    seq(|records|, i requires 0 <= i < |records| => MarkUnique(records, records[i]))
  }

  lemma {:induction false} PublishedCountPositive(records: seq<Record>, rid: string)
    ensures PublishedCount(records, rid) > 0 <==> exists j :: 0 <= j < |records| && PublishedAs(records[j], rid)
    decreases |records|
  {
    if records != [] {
      var init := records[..|records| - 1];
      PublishedCountPositive(init, rid);
      assert forall j :: 0 <= j < |init| ==> init[j] == records[j];
    }
  }

  /** A published record is counted more than once exactly when another published record shares its id. */
  lemma {:induction false} PublishedCountShared(records: seq<Record>, i: nat)
    requires i < |records| && records[i].published
    ensures PublishedCount(records, records[i].recordId) > 1 <==>
            exists j :: 0 <= j < |records| && j != i && PublishedAs(records[j], records[i].recordId)
    decreases |records|
  {
    var rid := records[i].recordId;
    var n := |records|;
    var init := records[..n - 1];
    assert forall j :: 0 <= j < |init| ==> init[j] == records[j];
    PublishedCountPositive(init, rid);
    if i < n - 1 {
      PublishedCountShared(init, i);
    }
  }

  /**
   * After the update a published record is flagged unique exactly when no
   * other published record has its record id; unpublished records, and every
   * other field, are left as they were.
   */
  lemma UniquenessFlags(records: seq<Record>, i: nat)
    requires i < |records|
    ensures var r := Uniqueness(records)[i];
            && r.(uniquePublished := records[i].uniquePublished) == records[i]
            && (!records[i].published ==> r == records[i])
            && (records[i].published ==>
                  (r.uniquePublished == Some(false) <==>
                     exists j :: 0 <= j < |records| && j != i && PublishedAs(records[j], records[i].recordId)))
            && (records[i].published ==> r.uniquePublished.Some?)
  {
    if records[i].published {
      PublishedCountShared(records, i);
    }
  }

  /** The update is idempotent: the flags depend only on which records are published and their ids. */
  lemma UniquenessIdempotent(records: seq<Record>)
    ensures Uniqueness(Uniqueness(records)) == Uniqueness(records)
  {
    var once := Uniqueness(records);
    SameKeysSameCounts(records, once);
  }

  lemma {:induction false} SameKeysSameCounts(s: seq<Record>, t: seq<Record>)
    requires |s| == |t|
    requires forall i :: 0 <= i < |s| ==> s[i].published == t[i].published && s[i].recordId == t[i].recordId
    ensures forall rid :: PublishedCount(s, rid) == PublishedCount(t, rid)
    decreases |s|
  {
    if s != [] {
      SameKeysSameCounts(s[..|s| - 1], t[..|t| - 1]);
    }
  }

  /**
   * The `dupes` query: the record ids shared by more than one published
   * record, counted in one pass over the table.
   */
  method Duplicates(records: seq<Record>) returns (dupes: set<string>)
    ensures forall rid :: rid in dupes <==> PublishedCount(records, rid) > 1
  {
    var counts: map<string, nat> := map[];
    var i := 0;
    while i < |records|
      invariant 0 <= i <= |records|
      invariant forall rid :: rid in counts ==> counts[rid] == PublishedCount(records[..i], rid)
      invariant forall rid :: rid !in counts ==> PublishedCount(records[..i], rid) == 0
    {
      var x := records[i];
      assert records[..i + 1][..i] == records[..i];
      if x.published {
        var c := if x.recordId in counts then counts[x.recordId] else 0;
        counts := counts[x.recordId := c + 1];
      }
      i := i + 1;
    }
    assert records[..i] == records;
    dupes := set rid | rid in counts && counts[rid] > 1;
  }

  /**
   * The two bulk updates of `update_published_uniqueness`: published records whose id is not a
   * duplicate are set unique, those whose id is a duplicate are set not
   * unique.
   */
  method MarkUniqueness(records: seq<Record>) returns (r: seq<Record>)
    ensures r == Uniqueness(records)
  {
    var dupes := Duplicates(records);
    r := records;
    var i := 0;
    while i < |r|
      invariant 0 <= i <= |r| == |records|
      invariant forall k :: 0 <= k < i ==> r[k] == MarkUnique(records, records[k])
      invariant forall k :: i <= k < |r| ==> r[k] == records[k]
    {
      if r[i].published {
        r := r[i := r[i].(uniquePublished := Some(r[i].recordId !in dupes))];
      }
      i := i + 1;
    }
  }
}

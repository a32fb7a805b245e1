/**
 * The mapped-field step of `CombineJob.generate_validation_report`: the
 * record ids of the failure table are sent to the search index in windows of
 * `chunk_size`, and for every returned document each requested field is
 * appended to that field's column (`None` when the document lacks it).
 * The index is an input here: a map from record id to the document's fields.
 */
module Report {
  import opened Wrappers

  function Min(a: int, b: int): int
  {
    if a <= b then a else b
  }

  /** The windows of at most `size` ids, in order, that the report requests one at a time. */
  function Chunks(ids: seq<string>, size: nat): (r: seq<seq<string>>)
    requires size > 0
    decreases |ids|
  {
    if |ids| == 0 then []
    else if |ids| <= size then [ids]
    else [ids[..size]] + Chunks(ids[size..], size)
  }

  function Flatten(chunks: seq<seq<string>>): seq<string>
  {
    if chunks == [] then [] else chunks[0] + Flatten(chunks[1..])
  }

  /** The windows cover the ids exactly, in order. */
  lemma {:induction false} ChunksCover(ids: seq<string>, size: nat)
    requires size > 0
    ensures Flatten(Chunks(ids, size)) == ids
    decreases |ids|
  {
    if |ids| > size {
      ChunksCover(ids[size..], size);
      assert Chunks(ids, size)[1..] == Chunks(ids[size..], size);
      assert ids == ids[..size] + ids[size..];
    }
  }

  /** Each window holds between 1 and `size` ids, and every window but the last holds exactly `size`. */
  lemma {:induction false} ChunksSizes(ids: seq<string>, size: nat)
    requires size > 0
    ensures forall i :: 0 <= i < |Chunks(ids, size)| ==> 1 <= |Chunks(ids, size)[i]| <= size
    ensures forall i :: 0 <= i < |Chunks(ids, size)| - 1 ==> |Chunks(ids, size)[i]| == size
    decreases |ids|
  {
    if |ids| > size {
      var c := Chunks(ids, size);
      var rest := Chunks(ids[size..], size);
      ChunksSizes(ids[size..], size);
      assert c == [ids[..size]] + rest;
      assert forall j :: 0 <= j < |rest| ==> 1 <= |rest[j]| <= size;
      assert forall j :: 0 <= j < |rest| - 1 ==> |rest[j]| == size;
      forall i | 0 <= i < |c| ensures 1 <= |c[i]| <= size && (i < |c| - 1 ==> |c[i]| == size) {
        if i > 0 {
          assert c[i] == rest[i - 1];
        } else {
          assert c[i] == ids[..size];
        }
      }
    }
  }

  /** The `_source` of one indexed document: field name to value. */
  type Doc = map<string, string>

  /** `field_values_dict`: one column of values per mapped field. */
  type Columns = map<string, seq<Option<string>>>

  /** The value a document contributes to a field's column. */
  function FieldValue(doc: Doc, field: string): Option<string>
  {
    if field in doc then Some(doc[field]) else None
  }

  /** The inner loop over `mapped_field_include` for one document. */
  function AppendDoc(acc: Columns, doc: Doc, fields: seq<string>): (r: Columns)
    requires forall f :: f in fields ==> f in acc
    ensures r.Keys == acc.Keys
    decreases |fields|
  {
    if fields == [] then acc
    else
      var last := fields[|fields| - 1];
      var before := AppendDoc(acc, doc, fields[..|fields| - 1]);
      before[last := before[last] + [FieldValue(doc, last)]]
  }

  /** The columns after the documents of `ids` have been appended in order. */
  function AppendDocs(acc: Columns, index: map<string, Doc>, ids: seq<string>, fields: seq<string>): (r: Columns)
    requires forall f :: f in fields ==> f in acc
    requires forall id :: id in ids ==> id in index
    ensures r.Keys == acc.Keys
    decreases |ids|
  {
    if ids == [] then acc
    else
      var before := AppendDocs(acc, index, ids[..|ids| - 1], fields);
      AppendDoc(before, index[ids[|ids| - 1]], fields)
  }

  /** `{ field:[] for field in mapped_field_include }`. */
  function EmptyColumns(fields: seq<string>): (r: Columns)
    ensures r.Keys == set f | f in fields
    ensures forall f :: f in r ==> r[f] == []
  {
    map f | f in fields :: []
  }

  /** The columns the report adds for the mapped fields. */
  function MappedFieldValues(index: map<string, Doc>, ids: seq<string>, fields: seq<string>): Columns
    requires forall id :: id in ids ==> id in index
  {
    AppendDocs(EmptyColumns(fields), index, ids, fields)
  }

  predicate Distinct(fields: seq<string>)
  {
    forall i, j :: 0 <= i < j < |fields| ==> fields[i] != fields[j]
  }

  /** One document adds its value once to the column of each field listed once, and leaves other columns alone. */
  lemma {:induction false} AppendDocColumn(acc: Columns, doc: Doc, fields: seq<string>, f: string)
    requires forall g :: g in fields ==> g in acc
    requires Distinct(fields) && f in acc
    ensures AppendDoc(acc, doc, fields)[f] == if f in fields then acc[f] + [FieldValue(doc, f)] else acc[f]
    decreases |fields|
  {
    if fields != [] {
      var init := fields[..|fields| - 1];
      assert forall g :: g in init ==> g in fields;
      assert Distinct(init);
      AppendDocColumn(acc, doc, init, f);
      assert f in fields <==> f in init || f == fields[|fields| - 1];
      if f == fields[|fields| - 1] {
        assert f !in init by {
          forall i | 0 <= i < |init| ensures init[i] != f {
            assert init[i] == fields[i];
          }
        }
      }
    }
  }

  /**
   * With each field requested once, the column of a field holds, for each
   * record id in order, that document's value of the field.
   */
  lemma {:induction false} MappedColumns(index: map<string, Doc>, ids: seq<string>, fields: seq<string>, f: string)
    requires forall id :: id in ids ==> id in index
    requires Distinct(fields) && f in fields
    ensures var c := MappedFieldValues(index, ids, fields);
            && f in c && |c[f]| == |ids|
            && forall i :: 0 <= i < |ids| ==> c[f][i] == FieldValue(index[ids[i]], f)
    decreases |ids|
  {
    if ids != [] {
      var init := ids[..|ids| - 1];
      assert forall id :: id in init ==> id in ids;
      MappedColumns(index, init, fields, f);
      var before := AppendDocs(EmptyColumns(fields), index, init, fields);
      AppendDocColumn(before, index[ids[|ids| - 1]], fields, f);
    }
  }

  /** The number of times `f` is listed. */
  function Occurrences(fields: seq<string>, f: string): nat
  {
    if fields == [] then 0 else (if fields[0] == f then 1 else 0) + Occurrences(fields[1..], f)
  }

  lemma {:induction false} OccurrencesSnoc(fields: seq<string>, g: string, f: string)
    ensures Occurrences(fields + [g], f) == Occurrences(fields, f) + (if g == f then 1 else 0)
    decreases |fields|
  {
    if fields != [] {
      assert (fields + [g])[1..] == fields[1..] + [g];
      OccurrencesSnoc(fields[1..], g, f);
    }
  }

  /** A field listed k times gets k values per document. */
  lemma {:induction false} AppendDocLength(acc: Columns, doc: Doc, fields: seq<string>, f: string)
    requires forall g :: g in fields ==> g in acc
    requires f in acc
    ensures |AppendDoc(acc, doc, fields)[f]| == |acc[f]| + Occurrences(fields, f)
    decreases |fields|
  {
    if fields != [] {
      var init := fields[..|fields| - 1];
      assert forall g :: g in init ==> g in fields;
      AppendDocLength(acc, doc, init, f);
      assert fields == init + [fields[|fields| - 1]];
      OccurrencesSnoc(init, fields[|fields| - 1], f);
    }
  }

  lemma MulSucc(n: nat, k: nat)
    ensures (n + 1) * k == n * k + k
  {
  }

  /**
   * A field listed k times gets a column of k values per record, so a
   * repeated field yields a column longer than the table it is added to.
   */
  lemma {:induction false} MappedColumnLength(index: map<string, Doc>, ids: seq<string>, fields: seq<string>, f: string)
    requires forall id :: id in ids ==> id in index
    requires f in fields
    ensures var c := MappedFieldValues(index, ids, fields);
            f in c && |c[f]| == |ids| * Occurrences(fields, f)
    decreases |ids|
  {
    if ids != [] {
      var init := ids[..|ids| - 1];
      assert forall id :: id in init ==> id in ids;
      MappedColumnLength(index, init, fields, f);
      var before := AppendDocs(EmptyColumns(fields), index, init, fields);
      AppendDocLength(before, index[ids[|ids| - 1]], fields, f);
      MulSucc(|init|, Occurrences(fields, f));
    }
  }

  /** The loop over `mapped_field_include` for one returned document. */
  method AppendFields(columns: Columns, doc: Doc, fields: seq<string>) returns (r: Columns)
    requires forall f :: f in fields ==> f in columns
    ensures r == AppendDoc(columns, doc, fields)
  {
    r := columns;
    var j := 0;
    while j < |fields|
      invariant 0 <= j <= |fields|
      invariant r == AppendDoc(columns, doc, fields[..j])
    {
      var f := fields[j];
      assert fields[..j + 1][..j] == fields[..j];
      r := r[f := r[f] + [FieldValue(doc, f)]];
      j := j + 1;
    }
    assert fields[..j] == fields;
  }

  /** Taking one more id appends that document's values. */
  lemma AppendDocsStep(init: Columns, index: map<string, Doc>, ids: seq<string>, k: nat, fields: seq<string>)
    requires k < |ids|
    requires forall f :: f in fields ==> f in init
    requires forall id :: id in ids ==> id in index
    ensures ids[k] in index
    ensures forall f :: f in fields ==> f in AppendDocs(init, index, ids[..k], fields)
    ensures AppendDocs(init, index, ids[..k + 1], fields)
            == AppendDoc(AppendDocs(init, index, ids[..k], fields), index[ids[k]], fields)
  {
    assert ids[k] in ids;
    assert ids[..k + 1][..k] == ids[..k];
    assert forall id :: id in ids[..k] ==> id in ids;
  }

  /** The loop over the documents returned for the window `ids[start..stop]`. */
  method AppendChunk(columns: Columns, init: Columns, index: map<string, Doc>, ids: seq<string>,
                     start: nat, stop: nat, fields: seq<string>) returns (r: Columns)
    requires start <= stop <= |ids|
    requires forall f :: f in fields ==> f in init
    requires forall id :: id in ids ==> id in index
    requires columns == AppendDocs(init, index, ids[..start], fields)
    ensures r == AppendDocs(init, index, ids[..stop], fields)
  {
    r := columns;
    var k := start;
    while k < stop
      invariant start <= k <= stop
      invariant r == AppendDocs(init, index, ids[..k], fields)
    {
      AppendDocsStep(init, index, ids, k, fields);
      r := AppendFields(r, index[ids[k]], fields);
      k := k + 1;
    }
  }

  /**
   * The chunk loop of `generate_validation_report`: `requests` are the id
   * windows sent to the index, `columns` the mapped-field columns built from
   * the documents returned. A window size of 0 would never advance, so the
   * loop needs a positive one when there are ids.
   */
  method ChunkLoop(ids: seq<string>, chunkSize: nat, index: map<string, Doc>, fields: seq<string>)
    returns (requests: seq<seq<string>>, columns: Columns)
    requires |ids| > 0 ==> chunkSize > 0
    requires forall id :: id in ids ==> id in index
    ensures |ids| == 0 ==> requests == []
    ensures |ids| > 0 ==> requests == Chunks(ids, chunkSize)
    ensures columns == MappedFieldValues(index, ids, fields)
  {
    requests := [];
    var init := EmptyColumns(fields);
    columns := init;
    var tlen := |ids|;
    var start := 0;
    var end := start + chunkSize;
    while start < tlen
      invariant 0 <= start
      invariant start < tlen ==> start < end && Min(end, tlen) == Min(start + chunkSize, tlen)
      invariant tlen == 0 ==> requests == []
      invariant tlen > 0 ==> requests + Chunks(ids[Min(start, tlen)..], chunkSize) == Chunks(ids, chunkSize)
      invariant columns == AppendDocs(init, index, ids[..Min(start, tlen)], fields)
      decreases tlen - start
    {
      var stop := Min(end, tlen);
      var chunk := ids[start..stop];
      columns := AppendChunk(columns, init, index, ids, start, stop, fields);
      ChunksStep(ids, chunkSize, start, stop);
      requests := requests + [chunk];
      if tlen > end + chunkSize {
        start := end;
        end := end + chunkSize;
      } else {
        start := end;
        end := tlen;
      }
    }
    assert ids[..tlen] == ids;
  }

  /**
   * The mapped-field part of `generate_validation_report`, behind its
   * `if mapped_field_include:` guard: without mapped fields nothing is sent
   * to the index and no column is built; with them the chunk loop runs.
   */
  method FetchMappedFields(ids: seq<string>, chunkSize: nat, index: map<string, Doc>, fields: seq<string>)
    returns (requests: seq<seq<string>>, columns: Columns)
    requires |fields| > 0 && |ids| > 0 ==> chunkSize > 0
    requires |fields| > 0 ==> forall id :: id in ids ==> id in index
    ensures |fields| == 0 ==> requests == [] && columns == map[]
    ensures |fields| > 0 && |ids| == 0 ==> requests == []
    ensures |fields| > 0 && |ids| > 0 ==> requests == Chunks(ids, chunkSize)
    ensures |fields| > 0 ==> columns == MappedFieldValues(index, ids, fields)
  {
    if |fields| > 0 {
      requests, columns := ChunkLoop(ids, chunkSize, index, fields);
    } else {
      requests := [];
      columns := map[];
    }
  }

  lemma ChunksStep(ids: seq<string>, size: nat, start: nat, stop: nat)
    requires size > 0 && start < |ids| && stop == Min(start + size, |ids|)
    ensures Chunks(ids[start..], size) == [ids[start..stop]] + Chunks(ids[stop..], size)
  {
    if stop < |ids| {
      assert ids[start..][..size] == ids[start..stop];
      assert ids[start..][size..] == ids[stop..];
    } else {
      assert ids[start..stop] == ids[start..];
      assert |ids[start..]| <= size;
      assert ids[stop..] == [];
      assert Chunks(ids[stop..], size) == [];
    }
  }
}

# Combine pipeline core, modelled in Dafny

Combine manages metadata aggregation pipelines. Records are harvested into
jobs. Jobs read the records of other jobs through input edges (`JobInput`), so
the jobs form a graph. Each job is validated against scenarios (`JobValidation`),
runs remotely on a Spark service reached through Livy, and can be published.
This project models the sequential core of `core/models.py` that sits under
the database, network and filesystem I/O.

The database is a value (`Schema.Db`):
- tables read by primary key are maps;
- the other tables are sequences in primary-key order.

Operations that save rows are methods of `Store.Store`, a class that holds the
database and the next free primary key. Every input edge points to a job with a
smaller id. This is how ids are handed out, and it makes the job graph acyclic.
The recursive walks terminate because of it.

Modules:
- `Schema`: rows, the database, and the queries several parts share. These are the input edges of a job, the jobs reading it, its bindings, the first record of a job with a given record id, and the ancestors of a job.
- `Text`, `Ordering`: `'%d'` and `'%02d'` formatting, `str.replace`, `str.rstrip`, and Python's order on `str`. The lineage sorts its edge keys in that order.
- `JobInfo`: `job_type_family`, `calc_elapsed`, `elapsed_as_string`, `job_output_as_filesystem` and `get_total_input_job_record_count`.
- `Lifecycle`: the job and session status machine. Covers `refresh_from_livy` (job and session), `update_status`, `get_active_session`, `_get_active_livy_session` and `submit_job_to_livy`.
- `Validation`: `validation_failure_count` and its cache, and the roll-up in `validation_results`.
- `Lineage`: `get_lineage` and `_get_parent_jobs`. The recursive appends into the lineage dictionary are a method over a `LineageDict` class, proved equal to a walk function.
- `LineageUnion`: `get_all_jobs_lineage` and `RecordGroup.get_jobs_lineage`. These concatenate, keep one node per id and one edge per key (the last one), and sort.
- `Stages`: `Record.get_record_stages`, with its nested `get_upstream` and `get_downstream`, over a shared `StageList`.
- `Report`: the chunk loop of `generate_validation_report` that collects mapped field values from the search index.
- `Published`: the grouping in `PublishedRecords.__init__` and `update_published_uniqueness`.
- `Creation`: the rows the job constructors save, and `AnalysisJob.get_analysis_hierarchy`.
- `Store`: the state-changing operations as methods.

The stages list follows the code of `get_record_stages`, not its docstring
(core/models.py:1073), which promises the versions from first created to last.
When a record's jobs form a diamond (two jobs read one job, and a merge job
reads both), the search finds the shared version once per branch. It puts the
branch searched last in front. So the list repeats a version and is not in
creation order. `Stages.DiamondStages` states the list for such a case.

Inputs that come from outside are parameters:
- replies of the Livy service;
- the current time and the time stamp of a default job name;
- the documents of the search index;
- the configured names of the analysis organization and record group.

## Model

| member | source | states |
|---|---|---|
| Schema.InputLinks | core/models.py:743 | the input edges of a job are exactly the `JobInput` rows whose job it is |
| Schema.OutputLinks | core/models.py:1107 | the edges of the jobs that read a job are exactly the rows whose input job it is |
| Schema.BindingsOf | core/models.py:895 | a job's bindings are exactly its `JobValidation` rows |
| Schema.FirstRecord | core/models.py:1093-1098 | `.first()` finds the first row, in primary-key order, of that job with that record id, and finds nothing only when no such row exists |
| Schema.AncestorsBelow | core/models.py:931-940 | every ancestor of a job has a smaller id |
| Schema.AncestorsClosed | core/models.py:728-798 | a job with its ancestors is closed under input edges |
| Schema.AncestorsLeast | core/models.py:728-798 | it is the least such set, so the walk reaches exactly the ancestors |
| Schema.InputIsAncestor | core/models.py:931-940 | the input job of an edge is an ancestor of the edge's job |
| Schema.AncestorsTransitive | core/models.py:1104-1124 | an ancestor of an ancestor is an ancestor |
| Text.NatToString | core/models.py:462 | `'%d'` gives at least one digit and no leading zero |
| Text.DecimalRoundTrip | core/models.py:462 | reading back the digits of `'%d' % n` gives `n` |
| Text.NatToStringInjective | core/models.py:789 | different numbers print differently |
| Text.Pad2 | core/models.py:462 | `'%02d' % n` is two digits whose value is `n` |
| Text.RemoveAllAbsent | core/models.py:631 | `replace` leaves a string without the pattern unchanged |
| Text.RStrip | core/models.py:631 | `rstrip(c)` keeps a prefix that does not end in `c` and cuts only `c`s |
| Ordering.StrLessIrreflexive | core/models.py:302 | Python's `str` order is irreflexive |
| Ordering.StrLessTotal | core/models.py:302 | any two different strings are ordered one way |
| Ordering.StrLessAsymmetric | core/models.py:302 | the order is asymmetric |
| Ordering.StrLessTransitive | core/models.py:302 | the order is transitive |
| Ordering.SortNats | core/models.py:858 | sorting node ids gives an increasing list with the same members |
| Ordering.SortStrings | core/models.py:859 | sorting edge keys gives a list increasing in `str` order with the same members |
| JobInfo.MroOfType | core/models.py:367-388 | harvest classes have the MRO class, `HarvestJob`, `CombineJob`, `object`; the others have the class, `CombineJob`, `object` |
| JobInfo.JobTypeFamily | core/models.py:367-388 | the family is `HarvestJob` exactly for the two harvest types, otherwise the job type itself |
| JobInfo.TrackOf | core/models.py:436-439 | `jobtrack_set.first()` is the job's first track in primary-key order, and is missing only when the job has none |
| JobInfo.CalcElapsed | core/models.py:423-451 | elapsed is below one day, and 0 without a track |
| JobInfo.CalcElapsedIsSpanModDay | core/models.py:423-451 | `.seconds` differs from the true span by whole days and equals it for spans under a day |
| JobInfo.ElapsedAsString | core/models.py:454-462 | the string has the `h:mm:ss` shape |
| JobInfo.ElapsedStringRoundTrip | core/models.py:454-462 | parsing the string back gives the elapsed seconds |
| JobInfo.JobOutputAsFilesystem | core/models.py:618-631 | fails exactly when the job has no output path, where the source raises `AttributeError` on `None` |
| JobInfo.JobOutputNoTrailingSlash | core/models.py:618-631 | for a job with an output path, the location never ends in `/` and is a prefix of the path with `file://` removed |
| JobInfo.JobOutputOfFileUri | core/models.py:618-631 | a job whose output path is a `file://` URI gets that path without trailing slashes |
| JobInfo.TotalInputRecordCount | core/models.py:2895-2911 | `None` exactly when the job has no input edges |
| JobInfo.SumInputCountsBounds | core/models.py:2908 | each input job's count is at most the sum; the sum is 0 exactly when every count is 0 |
| JobInfo.TotalInputRecordCountBounds | core/models.py:2895-2911 | the same bounds for the job's own input edges |
| Lifecycle.Poll | core/models.py:493-552 | 400 and 404 set `gone`; 200 copies the state and sets `finished` exactly on `available`; `finished` is never cleared; other codes change nothing; no other field changes |
| Lifecycle.UpdateStatus | core/models.py:391-420 | a deleted job is unchanged; the poll happens only in the polled statuses with a URL; the record count changes only from 0 on a finished job, to the stored count; elapsed is recomputed; nothing else changes |
| Lifecycle.GoneIsFinal | core/models.py:404-406 | a `gone` job stays `gone`, whatever the reply |
| Lifecycle.FinishedIsFinal | core/models.py:541-542 | neither polling nor `update_status` un-finishes a job |
| Lifecycle.AvailableCompletesJob | core/models.py:405-420 | a polled job whose reply is `available` is finished, with its record count filled in |
| Lifecycle.Overwrite | core/models.py:137-144 | an application field takes the reply's value whenever the reply has the key, `null` included, and is kept when the key is missing |
| Lifecycle.NullReplyClears | core/models.py:137-144 | a 200 reply with `null` application fields clears the stored ones |
| Lifecycle.MissingKeysKeep | core/models.py:137-144 | a 200 reply without the application keys keeps the stored ones |
| Lifecycle.RefreshSession | core/models.py:92-150 | 404 sets `gone` only; 200 copies state and date, sets `active` on a live state, and copies each application field whose key the reply has (a `null` value clears it); any other code changes nothing |
| Lifecycle.RefreshKeepsActive | core/models.py:130-133 | a refresh never clears `active` |
| Lifecycle.ActiveOf | core/models.py:216 | the active sessions, and no others |
| Lifecycle.GetActiveSession | core/models.py:203-227 | `False` exactly without active sessions; the one active session; or all active ones when there are several |
| Lifecycle.ActiveLivySession | core/models.py:2734-2768 | a session is found exactly when one session is active and the service reports it live |
| Lifecycle.ActiveLivySessionIsTheActiveSession | core/models.py:2747-2761 | that session is the one `get_active_session` returns |
| Lifecycle.Submitted | core/models.py:2812-2818 | a submission records the statement id, state and URL, and changes no other modelled field |
| Lifecycle.SubmittedJobIsPolled | core/models.py:2812-2818 | a job submitted in a polled state is polled by the next `update_status` |
| Validation.FailureCountStep | core/models.py:1708-1729 | the value returned is the cached value stored |
| Validation.FailureCountStepChanges | core/models.py:1722-1729 | only the cache changes; a recount happens exactly when the count is unknown on a finished job or forced, and stores the recorded number |
| Validation.FailureCountCached | core/models.py:1722-1729 | a second unforced call returns the same value and changes nothing, even after new failures |
| Validation.ValidationResults | core/models.py:865-911 | no bindings gives a pass with 0 failures; the verdict holds exactly when the summed count is 0 |
| Validation.SumCountsPositive | core/models.py:895-901 | the sum is positive exactly when some binding reports a positive count |
| Validation.VerdictFalseIffSomeFailure | core/models.py:881-911 | a job fails exactly when one of its bindings reports a failure |
| Validation.CacheFillKeepsResults | core/models.py:898 | storing one binding's count does not change the verdict or count |
| Validation.FillCache | core/models.py:1722-1729 | filling a cache changes only the cached field and not what the binding reports |
| Validation.FillCaches | core/models.py:895-898 | exactly the job's bindings get their caches filled |
| Validation.FillCachesKeepsResults | core/models.py:865-911 | after `validation_results` has written its caches, a second call reports the same verdict and count |
| Validation.FillCachesNoBindings | core/models.py:888-889 | a job without bindings writes no cache |
| Lineage.NodeOf | core/models.py:755-775 | a node holds the job's id, name, type and deletion flag, its validation verdict and the given status; analysis jobs have no record group or organization id |
| Lineage.EdgeKeyInjective | core/models.py:789 | distinct endpoints give distinct edge keys |
| Lineage.EdgeOf | core/models.py:781-795 | downstream edges run input job to job, upstream edges the other way; the key is `'<from>_to_<to>'` |
| Lineage.NodeIds | core/models.py:755 | the ids of the node list, in order |
| Lineage.EdgeIds | core/models.py:790 | the keys of the edge list, in order |
| Lineage.AddNodeFacts | core/models.py:755-778 | a node is appended only for a new id, so ids stay distinct |
| Lineage.AddEdgeFacts | core/models.py:788-795 | an edge is appended only for a new key, so keys stay distinct and no distinct edge is lost |
| Lineage.ParentWalkAppends | core/models.py:728-798 | the walk only appends, and every node it adds is its job's node with the status given |
| Lineage.LinksWalkAppends | core/models.py:749-798 | the same for the loop over a job's input edges |
| Lineage.ParentWalkIds | core/models.py:728-798 | the ids added are exactly the ancestors of the job, and stay distinct |
| Lineage.LinksWalkIds | core/models.py:749-798 | the same for the loop over a job's input edges |
| Lineage.ParentWalkEdges | core/models.py:728-798 | the edges added are exactly the oriented input edges of the job and its ancestors, with distinct keys |
| Lineage.LinksWalkEdges | core/models.py:749-798 | the same for the loop over a job's input edges |
| Lineage.LineageShape | core/models.py:689-798 | a lineage starts with the job's node; its ids are exactly the job and its ancestors; its edges are exactly their oriented input edges; ids and keys are distinct |
| Lineage.LineageNodesCarrySeedStatus | core/models.py:767 | every node carries the status of the job the lineage was asked for, and has null ids exactly for analysis jobs |
| Lineage.LineageOrientation | core/models.py:781-795 | every edge follows an input edge, oriented by `directionality` |
| Lineage.LineageDict.constructor | core/models.py:697-719 | the dictionary starts with the job's own node and no edges |
| Lineage.GetParentJobs | core/models.py:728-798 | the in-place recursion leaves the dictionary equal to the walk function |
| Lineage.GetLineage | core/models.py:689-725 | the method returns the lineage function's graph |
| LineageUnion.LastByKey | core/models.py:854-855 | the dict has exactly the keys that occur, each mapped to an element with that key |
| LineageUnion.LastByKeyIsLast | core/models.py:854-855 | each key keeps its last occurrence |
| LineageUnion.UniqueNodes | core/models.py:854-858 | node ids are increasing, the same ids as before, and each kept node is the last with its id |
| LineageUnion.UniqueEdges | core/models.py:855-859 | edge keys are increasing in `str` order, the same keys as before, and each kept edge is the last with its key |
| LineageUnion.UniqueEdgesKeepsAll | core/models.py:855 | when keys come from endpoints, deduplication loses no edge |
| LineageUnion.ConcatMembers | core/models.py:848-851 | the concatenation holds exactly the nodes and edges of the lineages |
| LineageUnion.ConcatLastNode | core/models.py:848-854 | the node kept for an id comes from the last lineage that contains the id |
| LineageUnion.Lineages | core/models.py:849 | the lineage of each job, in order |
| LineageUnion.MergedLineageShape | core/models.py:844-862 | node ids ascend and are exactly the jobs and their ancestors; edge keys ascend in `str` order; edges are exactly the oriented input edges among them |
| LineageUnion.LineagesShape | core/models.py:849 | each lineage's ids, keys and edges, per job |
| LineageUnion.MergedLineageNodes | core/models.py:851-858 | the merged node ids are exactly the jobs and their ancestors |
| LineageUnion.MergedLineageEdges | core/models.py:850-859 | the merged edges are exactly the oriented input edges of the jobs and their ancestors |
| LineageUnion.ConcatEdgeFrom | core/models.py:850 | each concatenated edge is an input edge from some job's closure |
| LineageUnion.MergedNodeStatus | core/models.py:848-854 | a shared node carries the status of the last job processed whose lineage contains it |
| LineageUnion.MergedNodeFrom | core/models.py:848-854 | the same, for one node |
| LineageUnion.MergeLineages | core/models.py:845-859 | the extend loop followed by dedup and sort equals the merged-lineage function |
| LineageUnion.JobIdsBelow | core/models.py:830 | `Job.objects.all()` lists the jobs in increasing id order |
| LineageUnion.FilterJobs | core/models.py:832-842 | keeps exactly the jobs passing the organization, record group and analysis filters, in order |
| LineageUnion.AllJobsSelection | core/models.py:823-842 | a non-empty query set is used as given; otherwise all jobs passing the filters, by id |
| LineageUnion.GetAllJobsLineage | core/models.py:802-862 | equals the merged lineage of the selected jobs |
| LineageUnion.Reverse | core/models.py:288 | reverses a list |
| LineageUnion.GroupJobsDescending | core/models.py:288 | exactly the group's jobs, in decreasing id order |
| LineageUnion.GetJobsLineage | core/models.py:268-306 | equals the merged downstream lineage of the group's jobs, highest id first |
| LineageUnion.DescendingLineageStatus | core/models.py:288-297 | with the jobs taken highest id first, a shared node carries the status of the lowest-id job that reaches it |
| LineageUnion.LowestReaching | core/models.py:288-297 | the last job in descending order is the lowest |
| LineageUnion.GroupLineageStatus | core/models.py:268-306 | in a record group's lineage, each node has the status of the lowest-id group job that reaches it |
| Stages.UpWalkStages | core/models.py:1081-1101 | the upstream search puts only versions of the record from ancestor jobs in front |
| Stages.UpLinksStages | core/models.py:1092-1101 | the same for the loop over the input edges |
| Stages.DownWalkStages | core/models.py:1104-1124 | the downstream search appends only versions from descendant jobs |
| Stages.DownLinksStages | core/models.py:1115-1124 | the same for the loop over the reading jobs |
| Stages.RecordStagesShape | core/models.py:1066-1133 | upstream versions from older ancestor jobs, then the record, then downstream versions from newer descendant jobs, all with the record's id |
| Stages.UpLinksFinds | core/models.py:1092-1101 | after the loop over the input edges, the first matching record of every input job is in the list |
| Stages.UpWalkFinds | core/models.py:1081-1101 | after the upstream search from a job, the first matching record of each of its input jobs is in the list |
| Stages.UpWalkClosed | core/models.py:1081-1101 | the upstream search leaves a list closed under inputs: for every version it adds, and for the starting job, the first matching record of each input job is in the list |
| Stages.UpLinksClosed | core/models.py:1092-1101 | the same closure for the loop over the input edges |
| Stages.DownLinksFinds | core/models.py:1115-1124 | after the loop over the reading jobs, the first matching record of every reading job is in the list |
| Stages.DownWalkFinds | core/models.py:1104-1124 | after the downstream search from a job, the first matching record of each job that reads it is in the list |
| Stages.DownWalkClosed | core/models.py:1104-1124 | the downstream search leaves the appended part closed under outputs: for every version it adds, and for the starting job, the first matching record of each reading job is in it |
| Stages.DownLinksClosed | core/models.py:1115-1124 | the same closure for the loop over the reading jobs |
| Stages.RecordStagesComplete | core/models.py:1066-1133 | without `input_record_only`, the record sits between its upstream and downstream parts; the upstream part holds the first matching version of every input job of the record's job and of every upstream version, and the downstream part the same for every reading job |
| Stages.DiamondIsDiamondShaped | core/models.py:1081-1124 | a concrete four-job diamond, with one version of the record per job, has the shape the next lemma is about |
| Stages.DiamondStages | core/models.py:1066-1133 | for a record of the merge job of a diamond, the stages list is the shared version, the second branch, the shared version again, the first branch, then the record: not the creation order the docstring promises |
| Stages.ImmediateStages | core/models.py:1097-1101 | with `input_record_only`, exactly the first matching record of each input job, and never the record itself |
| Stages.ImmediateLinks | core/models.py:1092-1100 | the same for the loop over the input edges |
| Stages.PrependsTrans | core/models.py:1099 | putting stages in front twice puts stages in front |
| Stages.StageList.constructor | core/models.py:1079 | the list starts empty |
| Stages.GetUpstream | core/models.py:1081-1101 | the in-place `get_upstream` equals the upstream walk function |
| Stages.GetDownstream | core/models.py:1104-1124 | the in-place `get_downstream` equals the downstream walk function |
| Stages.GetRecordStages | core/models.py:1066-1133 | the method returns the stages function's list |
| Report.ChunksCover | core/models.py:3044-3067 | the windows cover the ids exactly, in order |
| Report.ChunksSizes | core/models.py:3044-3067 | every window holds 1 to `chunk_size` ids; all but the last hold exactly `chunk_size` |
| Report.ChunksStep | core/models.py:3049-3067 | each loop turn sends the next window |
| Report.AppendDoc | core/models.py:3055-3059 | one document adds to existing columns only |
| Report.AppendDocs | core/models.py:3054-3059 | the documents add to existing columns only |
| Report.EmptyColumns | core/models.py:3040 | one empty column per requested field |
| Report.AppendDocColumn | core/models.py:3055-3059 | a field listed once gets the document's value or `None` appended, and other columns are untouched |
| Report.MappedColumns | core/models.py:3036-3068 | the column of each field holds each record's value of that field, in order |
| Report.MappedColumnLength | core/models.py:3055-3059 | a field listed k times gets k values per record |
| Report.AppendFields | core/models.py:3055-3059 | the field loop equals the one-document function |
| Report.AppendDocsStep | core/models.py:3054 | one more document appends its values |
| Report.AppendChunk | core/models.py:3050-3059 | the document loop of one window appends that window's values |
| Report.ChunkLoop | core/models.py:3040-3068 | the loop sends exactly the windows of `chunk_size` ids, and builds the mapped columns of all records |
| Report.FetchMappedFields | core/models.py:3036-3068 | without mapped fields nothing is sent and no column is built; with them the loop sends exactly the windows of `chunk_size` ids and builds the mapped columns of all records |
| Published.GroupBySetContent | core/models.py:2535-2545 | the grouping has a key exactly for each publish set id reached, listing its publish jobs in link order |
| Published.PublishedRecords.constructor | core/models.py:2526-2545 | `sets` is the grouping of all publish links by publish set id |
| Published.Uniqueness | core/models.py:2604-2622 | every row is the marked version of the row at its place |
| Published.PublishedCountPositive | core/models.py:2614 | an id is counted exactly when some published record has it |
| Published.PublishedCountShared | core/models.py:2614 | a published record's id counts more than once exactly when another published record shares it |
| Published.UniquenessFlags | core/models.py:2604-2622 | a published record is marked not unique exactly when another published record shares its id, and unique otherwise; unpublished records and every other field are unchanged |
| Published.UniquenessIdempotent | core/models.py:2604-2622 | running the update twice is the same as once |
| Published.SameKeysSameCounts | core/models.py:2614 | counts depend only on publication flags and ids |
| Published.Duplicates | core/models.py:2614 | the duplicate ids are exactly those shared by more than one published record |
| Published.MarkUniqueness | core/models.py:2614-2622 | the two bulk updates equal the uniqueness function |
| Creation.NewJob | core/models.py:3155-3169 | a new job row is `initializing`, unfinished, with no URL, statement, output or records |
| Creation.JobName | core/models.py:2694-2707 | a given name is kept; otherwise the default starts with the class name |
| Creation.InputRows | core/models.py:3742-3745 | one input edge per input job, in order |
| Creation.KnownPrefix | core/models.py:3747-3754 | bindings are saved up to the first scenario id that does not exist |
| Creation.BindingRows | core/models.py:3747-3754 | one binding per scenario, with fresh ids and no cached count |
| Creation.WithNewJobInSteps | core/models.py:3740-3754 | saving the row, then the edges, then the bindings gives the new-job database |
| Creation.NewJobWellFormed | core/models.py:3740-3754 | saving a job keeps the database consistent and its graph acyclic |
| Creation.NewJobKeepsAncestors | core/models.py:3742-3745 | creating a job changes no existing job's ancestors |
| Creation.NewJobPassesValidation | core/models.py:881-911 | a new job passes validation with 0 failures and one binding per known scenario |
| Creation.NewBindingsOnly | core/models.py:895 | a new job's bindings are exactly the rows added for it |
| Creation.NewJobNotPolled | core/models.py:406 | a new job is not polled until it is submitted |
| Creation.NewJobHasNoOutputLocation | core/models.py:1822-1836 | a new `AnalysisJob` has no output path, so taking its output location fails, because the signal that sets it skips that class |
| Creation.OrgsNamed | core/models.py:4012 | the organizations with a given name |
| Creation.GroupsNamed | core/models.py:4030 | the record groups with a given name |
| Creation.FindOrCreateOrgFacts | core/models.py:4012-4027 | the organization step keeps the database consistent and leaves one organization with the name |
| Creation.FindOrCreateGroupFacts | core/models.py:4030-4047 | the record-group step does the same for the group, which belongs to the analysis organization when created |
| Creation.AnalysisHierarchyHome | core/models.py:3999-4053 | fails exactly on an ambiguous name; otherwise both rows are the only ones with their names; the database stays consistent and keeps its jobs |
| Creation.AnalysisHierarchyFails | core/models.py:4012-4047 | fails exactly when one of the names matches several rows |
| Creation.AnalysisHierarchyKeeps | core/models.py:4012-4047 | keeps the database consistent and leaves jobs, edges and records alone |
| Creation.AnalysisHierarchyFound | core/models.py:4012-4053 | on success the organization and group are the only rows with their names |
| Creation.AnalysisHierarchyIdempotent | core/models.py:3999-4053 | after a success, a second lookup finds the same rows and changes nothing |
| Store.FillCachesValid | core/models.py:895-898 | writing the caches keeps the database consistent |
| Store.Store.RefreshJobFromLivy | core/models.py:493-552 | the job row becomes the polled row |
| Store.Store.UpdateJobStatus | core/models.py:391-420 | the job row becomes the updated row, counted from the job's records and timed from its track |
| Store.Store.RefreshSessionFromLivy | core/models.py:92-150 | the session row becomes the refreshed row |
| Store.Store.ActiveSession | core/models.py:2734-2768 | the session found when a `CombineJob` is built is the one live session, or none |
| Store.Store.LoadCombineJob | core/models.py:2674-2688 | building a `CombineJob` for an id caches the session lookup and the job row, or no job when the id has no row |
| Store.Store.StartJob | core/models.py:2771-2818 | a job is submitted exactly when the session cached at construction was found; the submission saves the cached job object over the row; otherwise nothing changes |
| Store.Store.ValidationFailureCount | core/models.py:1708-1729 | the binding row is updated and the value returned as the cache step says |
| Store.Store.FillBinding | core/models.py:895-901 | one loop turn fills one more binding and adds the count it reports |
| Store.Store.FillBindings | core/models.py:893-901 | the loop fills every binding of the job and sums their counts |
| Store.Store.JobValidationResults | core/models.py:865-911 | the summary is what the new state reports, with the verdict and count of the old state |
| Store.Store.UpdatePublishedUniqueness | core/models.py:2604-2622 | the record table becomes the uniqueness-marked table |
| Store.Store.SaveJobRow | core/models.py:3155-3169 | the job row is saved under the next id |
| Store.Store.SaveInputs | core/models.py:3742-3745 | one input edge is saved per input job |
| Store.Store.SaveBindings | core/models.py:3747-3754 | bindings are saved up to the first unknown scenario, and success means every scenario was bound |
| Store.Store.CreateJob | core/models.py:3740-3754 | the database becomes the new-job database; the result is the new id, or an error when a scenario is missing |
| Store.Store.HarvestOAIJobInit | core/models.py:3180-3232 | a new OAI harvest job without input jobs; the session is looked up first, in the database as it was before the job row is saved |
| Store.Store.HarvestStaticXMLJobInit | core/models.py:3289-3344 | a new static XML harvest job without input jobs; the session is looked up first, in the database as it was before the job row is saved |
| Store.Store.TransformJobInit | core/models.py:3537-3620 | a new transform job with one input job; the session is looked up first, in the database as it was before the job row is saved |
| Store.Store.MergeJobInit | core/models.py:3675-3754 | a new merge job with its input jobs; the session is looked up first, in the database as it was before the job row is saved |
| Store.Store.PublishJobInit | core/models.py:3801-3868 | a new publish job with one input job, no bindings, and a publish link to its record group; the session is looked up first, in the database as it was before the job row is saved |
| Store.Store.FindOrCreateAnalysisOrg | core/models.py:4012-4027 | the organization step as a state change |
| Store.Store.FindOrCreateAnalysisGroup | core/models.py:4030-4047 | the record-group step as a state change |
| Store.Store.GetAnalysisHierarchy | core/models.py:3999-4053 | the database and the result are those of the hierarchy function |
| Store.Store.NewAnalysisJob | core/models.py:3946-3995 | finds or creates the analysis group, then saves the job in it, or fails when a name is ambiguous |
| Store.Store.AnalysisJobInit | core/models.py:3917-3995 | finds or creates the analysis group, then saves the job in it, or fails when a name is ambiguous; the session is looked up first, in the database as it was before the job row is saved |

## Left out

- Livy HTTP exchanges (`LivyClient`): the replies are parameters. The Spark code strings built by `prepare_job` are not modelled, and neither are the `spark_code` and `headers` columns that `submit_job_to_livy` saves.
- The search index (`ESIndex`, `get_es_doc`, `mget`): documents are an input map from record id to fields.
- Report.FetchMappedFields: when mapped fields are given, requires every record id to have a document. The source raises a `KeyError` on a missing one.
- Report.FetchMappedFields: when mapped fields and record ids are given, requires a positive `chunk_size`. With 0 the source loop never advances.
- Report.ChunkLoop: has the same two requires as `Report.FetchMappedFields`, for the same reasons.
- The pandas data frames of `generate_validation_report`, apart from its chunk loop.
- Floating-point metrics (`calc_records_per_second`, field metrics) are not modelled.
- DPLA matching, schematron and Python validation, the OAI client, and the filesystem work are not modelled. This covers static files, archives, saving to disk and the delete cascade.
- The wall clock: `now` and the time stamp of a default name are parameters. JobInfo.CalcElapsed works in whole seconds and does not model microseconds.
- Creation.JobName: `None` and the empty string are both modelled as `""`. Both are false in Python. The job note is modelled the same way: a `None` note, which the source stores as NULL, is the empty string here.
- Creation.NewJob: does not model the post-save signal that sets the output path of a new non-analysis job and creates its DPLA map row. In the model a new job keeps no output path.
- The job constructors' user, index mapper, `job_details` JSON, OAI endpoint and overrides are not modelled.
- Store.Store.StartJob: returns whether the job was submitted, where the source returns `False` or `None`.
- Store.Store.StartJob: requires the cached job's row and its record group still to exist. The source's save would insert a deleted row again, or fail on a deleted group. A `CombineJob` built for an id without a row (which raises once it submits) is not started in the model.
- Lineage.GetLineage: takes the database as a value, so it does not perform the cache writes that `validation_results` makes for every node. Validation.FillCachesKeepsResults shows that these writes do not change the verdict a node shows.
- `job_type` strings outside the six job classes are not modelled. The same goes for `directionality` values other than `upstream` and `downstream`: the source fails on them once an edge exists.
- The queries over all jobs take a `bound` above every job id in place of the table's key range. Unordered queries return rows in primary-key order.
- One primary-key counter serves every table.
- The login signal that starts sessions, `start_session` and `stop_session` are left out, because they concern concurrency and remote calls.
- `get_record`, `set_published_field`, `get_publish_set_ids`, `count_indexed_fields` and `field_analysis` of `PublishedRecords` are not modelled.
- `update_record_count` is not a member of its own: `update_status` fills the record count from the job's record rows.

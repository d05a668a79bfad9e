# Verified models of the PostgreSQL cluster automation and its console

The repository deploys PostgreSQL clusters with Ansible and runs a web console beside them. This
project models the parts of it that carry state or have laws to keep, and proves those laws with
Dafny 4.11. `dafny verify dfyconfig.toml` checks everything.

## What is modelled

**The document editor** (`yedit.py`). A document is a tree of dictionaries, lists and scalars, and
a key such as `a.b[0].c` names a place in it.

| file | content |
|---|---|
| `Decimal.dfy`, `YeditKey.dfy` | the two regular expressions as tokeniser and validator; rendering a path and tokenising it is the identity |
| `YeditDocument.dfy` | what each method computes, on values, with every exception |
| `YeditLaws.dfy`, `YeditRemoval.dfy`, `YeditEdits.dfy` | the laws: lens laws, frames, commutation, removal, convergence of `update`, idempotence of runs |
| `YeditResults.dfy` | what each editing method leaves, entry by entry; negative indices; which edit a run makes; what raises |
| `PyHeap.dfy` | Python's lists and dictionaries as heap objects, documents as trees of them, and contexts with a hole for the cursor |
| `YeditCursor.dfy`, `YeditEditor.dfy` | the cursor loops and the class as they run in place, proved to compute what `YeditDocument` says |

**The console's service**. The tables, the processes that write them, and the queries that read them.

| file | content |
|---|---|
| `Wrappers.dfy`, `Tables.dfy`, `Texts.dfy`, `Paging.dfy` | shared types; the statements of the storage layer, the flag bits, and the trigger that counts servers; runs, splitting and joining of text; pages of an ordered result |
| `Topology.dfy` | one pass over the servers of a cluster: reconciliation, status, reset |
| `Lifecycle.dfy` | create and remove handlers, log watcher, log collectors and workers as one interleaved system |
| `WatchPass.dfy` | the dispatching loop with its pages and semaphore, its handlers, inserts and deletions, interleaved |
| `JsonArray.dfy`, `JsonLog.dfy` | the log file from the Ansible callback to the log watcher's decision |
| `QueryBuilder.dfy` | filters, placeholders, order and pages of the list queries |
| `SqlText.dfy`, `QueryMeaning.dfy` | a reader of SQL text that knows nothing of the builder; the queries, read by it, mean what the request says |
| `ConfigText.dfy` | the validator and the parser of configuration text in the form |
| `Regions.dfy` | grouping the regions of a provider |

## Results worth knowing

Some promises hold only under a condition. Where a line says "if and only if", the lemma it names proves both directions.

- Two puts at one key equal the second alone, except where null is put on a place that the first put made, and at the empty key, where a scalar put after a container leaves the container. The condition is exact and speaks of the document before both puts (`YeditLaws.PutPut`); the smallest failing case is `YeditLaws.NullAfterValueStays`.
- The key round trip of the tokeniser holds over a separator if and only if it is not empty, holds no key character, and does not, like `][`, close a bracket first and open one last; of single characters, all work but letters, digits and `/_-` (`YeditKey.WhichSeparate`, `YeditKey.WhichCharactersSeparate`). The validator accepts every such text if and only if it accepts that of two one-letter keys; of single characters it refuses the line feed alone, of longer separators many (`YeditKey.WhichAreValid`).
- `delete` raises for a key text that holds no token, such as `%`, although the validator accepts it (`YeditRemoval.DeleteIsTotal`, `YeditKey.PercentIsValidButEmpty`).
- The two edits documented at `automation/plugins/modules/yedit.py:164-178` raise on every document (`YeditEdits.DocumentedEditsRaise`). A put below a non-null value just put completes if and only if the value has room for the rest of the path (a falsy dictionary entry, a dictionary, or a list with the index in range) or the put has nothing to do (`YeditEdits.PutBelowCompletesIff`, `YeditLaws.PutCompletesIff`). The code is followed here, not the documentation.
- An edit reports a change if and only if the document is another one afterwards, or the edit merges nothing new into a dictionary (`YeditEdits.FlagIsExact`).
- Content given together with edits is dropped, and no change is reported, when the edits change nothing in it (`YeditEdits.ContentReachesFile`, exact). Content equal to the file hides edits given with it (`YeditEdits.EqualContentHidesEdits`). A run with content reports its change again each time it is repeated (`YeditEdits.PresentIsIdempotent`), and so does a run with a file and nothing to do (`YeditEdits.PresentWithoutEdits`).
- A second watch pass with the same report changes the cluster's status if and only if the server count, which the trigger has renewed meanwhile, is judged differently from the count in the snapshot of the first pass; a third pass never changes anything (`Topology.PassAgain`). A report with a second member that does not run is such a case (`Topology.SecondPassChangesStatus`). A second pass without an answer changes something if and only if the snapshot of the first did not know that the cluster was reached (`Topology.SilentPassAgain`).
- A cluster can stay `deploying` with nobody at work on it only after its create handler or the log watcher has failed to write its status, or after a removal has begun (`Lifecycle.NoOrphanedDeployment`). Each of the two does happen without the other (`Lifecycle.LostWriteOrphans`, `Lifecycle.HalfRemovalOrphans`). A removal that fails half-way leaves an orphan if and only if nobody else is at work on the cluster (`Lifecycle.HalfRemovalFrom`).
- In a watch pass a cluster that is not deleted is handled once, plus once for each insert that pulls it back before the next offset is read, minus once for each deletion that pushes it before that offset (`WatchPass.EachClusterOnce`). Inserts in the order of their identifiers pull nobody (`WatchPass.InOrderPullsNobody`). With more clusters than a page a complete pass can miss one (`WatchPass.SecondPageCanLose`), and with a late insert handle one twice (`WatchPass.FirstPageCanRepeat`).
- The texts of the list queries, read as SQL under their arguments, select exactly the rows that the fields of the request ask for, in the order it asks for (`QueryMeaning.ClusterQueriesAgree`, `QueryMeaning.ClusterQueriesRead`). Pages in any order that has the identifier among its keys, as the default has, are together the filtered table (`QueryMeaning.PagesAreTheTable`). An order has only one result if and only if no two rows tie; otherwise a row can be shown twice and another never (`QueryBuilder.OnlyOrderIffUnique`, `QueryBuilder.TiesLoseRows`).
- The configuration parser throws if and only if some line, be it an empty one, has no delimiter (`ConfigText.ParseThrowsIff`); on text the validator accepts it never does (`ConfigText.AcceptedParses`).
- A play that reports statistics without any result before them ends as failed, however its hosts fared, because its log does not decode (`JsonLog.EndToEnd`).

## Model

| member | source | states |
|---|---|---|
| YeditKey.ParseKey | automation/plugins/modules/yedit.py:248-252 | a key token is never empty |
| YeditKey.KeysHoldKeyChars | automation/plugins/modules/yedit.py:248-252 | a text of which only keys are taken loses none of its key characters to the tokeniser |
| YeditKey.OneCharacter | automation/plugins/modules/yedit.py:206-252 | which single characters are keys, for every separator; all others hold nothing |
| YeditKey.ParseRender | automation/plugins/modules/yedit.py:248-252 | rendering any path and tokenising the text gives the path back, for every integer index and every separator that separates |
| YeditKey.WhichSeparate | automation/plugins/modules/yedit.py:206-207 | the round trip holds for all paths over a separator if and only if it is not empty, holds no key character, and is not of the form `]...[` |
| YeditKey.WhichCharactersSeparate | automation/plugins/modules/yedit.py:206-207 | for one character: if and only if it is no letter, no digit and none of `/_-`; brackets and the four common separators work |
| YeditKey.KeySeparatorFuses | automation/plugins/modules/yedit.py:206-207 | a separator made of key characters alone fuses two keys into one token |
| YeditKey.RenderedIsValid | automation/plugins/modules/yedit.py:254-261 | the validator accepts the text of every non-empty path with base keys, over every separator it crosses |
| YeditKey.WhichAreValid | automation/plugins/modules/yedit.py:254-261 | it accepts all those texts over a separator if and only if it accepts the text of two one-letter keys; for one character, if and only if that is not the line feed |
| YeditKey.ValidMeansPieces | automation/plugins/modules/yedit.py:205-261 | the validator accepts exactly the texts that consist of runs of its class and bracketed numbers, each with at most one other character behind it, and at most a line feed at the end |
| YeditKey.PercentIsValidButEmpty | automation/plugins/modules/yedit.py:205-206 | the validator's literal `%` makes it accept a text that holds no token |
| YeditLaws.GetAfterAdd | automation/plugins/modules/yedit.py:321-395 | what `add_entry` adds at a path, `get_entry` finds there, for every path including negative and appending indices |
| YeditLaws.AddKeepsContainer | automation/plugins/modules/yedit.py:353-372 | adding succeeds only on a list or dictionary and yields one |
| YeditLaws.PutGet | automation/plugins/modules/yedit.py:661-702 | after a put that reports a change, get at the same key returns the value |
| YeditLaws.PutTwice | automation/plugins/modules/yedit.py:661-702 | a second identical put reports no change and leaves the document alone |
| YeditLaws.PutBack | automation/plugins/modules/yedit.py:663-669 | putting back what get returns changes nothing |
| YeditLaws.AddOverwrites | automation/plugins/modules/yedit.py:333-364 | of two additions at one path only the second is left, in outcome and document |
| YeditLaws.AddFound | automation/plugins/modules/yedit.py:333-364 | adding the non-null value already found rebuilds the same document |
| YeditLaws.NullIsWritten | automation/plugins/modules/yedit.py:333-364 | where null is found, adding null leaves the document alone if and only if each key of the path is present and each index in range |
| YeditLaws.PutPut | automation/plugins/modules/yedit.py:661-702 | two puts at one key equal the second alone, if and only if a condition on the document before both and the two values holds |
| YeditLaws.NullAfterValueStays | automation/plugins/modules/yedit.py:661-702 | 1 and then null under a new key leave the key with null; null alone writes nothing |
| YeditLaws.AddCompletes | automation/plugins/modules/yedit.py:333-372 | adding completes if and only if every step of the path can be taken or made |
| YeditLaws.PutCompletesIff | automation/plugins/modules/yedit.py:661-702 | exactly when a put completes, for every document, key text and value |
| YeditLaws.AddFrame | automation/plugins/modules/yedit.py:333-364 | an addition leaves what is found at every path that parts from its own, although falsy entries on the way are replaced |
| YeditLaws.PutFrame | automation/plugins/modules/yedit.py:661-702 | a put leaves get unchanged at every key whose path parts from it |
| YeditLaws.AddCommutes | automation/plugins/modules/yedit.py:333-364 | two additions at paths that part at dictionary keys commute |
| YeditLaws.PutsCommute | automation/plugins/modules/yedit.py:661-702 | two successful puts at keys whose paths part at dictionary keys commute |
| YeditRemoval.GetAfterUpdate | automation/plugins/modules/yedit.py:386-395 | an entry changed in place is found as changed |
| YeditRemoval.UpdateFrame | automation/plugins/modules/yedit.py:386-395 | changing an entry in place leaves every path that parts from it |
| YeditRemoval.AddIsUpdate | automation/plugins/modules/yedit.py:333-364 | where a non-null entry is found, no step on the way is falsy and adding replaces that entry alone |
| YeditRemoval.GetRaisesIff | automation/plugins/modules/yedit.py:386-395 | get raises, an index error, if and only if some token is an index below the range of the list that the tokens before it lead to |
| YeditRemoval.GetRaisesBelowRange | automation/plugins/modules/yedit.py:386-395 | get never raises on paths without negative indices |
| YeditRemoval.RemoveFound | automation/plugins/modules/yedit.py:294-318 | a found entry is removed, and only its parent changes |
| YeditRemoval.DeleteIsTotal | automation/plugins/modules/yedit.py:552-566 | for a non-empty key, exactly when delete raises, and that it reports a change exactly when get finds an entry |
| YeditRemoval.DeleteUndoesPut | automation/plugins/modules/yedit.py:552-566 | a non-null value put under a new key of an existing dictionary and deleted again restores the document |
| YeditRemoval.DeleteSlot | automation/plugins/modules/yedit.py:307-312 | deleting a list slot shifts later elements down by one, at any depth below them, and changes nothing elsewhere |
| YeditRemoval.UpdateMovesOne | automation/plugins/modules/yedit.py:631-646 | a changed update keeps the length and turns exactly one occurrence of the current value into the new one |
| YeditRemoval.UpdateConverges | automation/plugins/modules/yedit.py:631-659 | as many updates change the list as it holds the current value, then none does |
| YeditEdits.UpdateEditsConverge | automation/plugins/modules/yedit.py:771-797 | on a document, n copies of an update edit replace n occurrences in the list found at the key and nothing else, and a further copy reports a change exactly if occurrences are left |
| YeditRemoval.UpdateInserts | automation/plugins/modules/yedit.py:648-659 | without index and current value, update inserts if absent, and a second time does nothing |
| YeditEdits.NoChangeNoEffect | automation/plugins/modules/yedit.py:595-702 | an edit that reports no change has left the document as it was |
| YeditEdits.UnchangedIsUnchanged | automation/plugins/modules/yedit.py:771-797 | a list of edits that reports no change has left the document as it was |
| YeditEdits.FlagIsExact | automation/plugins/modules/yedit.py:595-702 | an edit of any kind reports a change if and only if the document differs afterwards or it merges nothing new into a dictionary |
| YeditEdits.MergeReportsChange | automation/plugins/modules/yedit.py:622-629 | any dictionary merged into itself is reported as a change |
| YeditEdits.RaiseStops | automation/plugins/modules/yedit.py:771-797 | an exception in a prefix of the edits is the exception of the list |
| YeditEdits.SettledSurvives | automation/plugins/modules/yedit.py:661-702 | a put with nothing left to do stays so under a put at a parting path |
| YeditEdits.SecondRunDoesNothing | automation/plugins/modules/yedit.py:771-797 | a list of puts at pairwise parting paths that completes once reports no change the second time |
| YeditEdits.PutBelowCompletesIff | automation/plugins/modules/yedit.py:333-372 | exactly when a put below a non-null value just put completes |
| YeditEdits.PutBelowScalarRaises | automation/plugins/modules/yedit.py:333-348 | below a truthy scalar just put, a put raises on every document |
| YeditEdits.DocumentedEditsRaise | automation/plugins/modules/yedit.py:164-178 | the two documented edits raise on every document |
| YeditEdits.FileWrittenOnlyOnChange | automation/plugins/modules/yedit.py:829-897 | a run that raises or reports no change leaves the file as it was |
| YeditEdits.FailedEditsWriteNothing | automation/plugins/modules/yedit.py:771-797 | an edit list that raises part-way leaves the file as it was, whatever its first edits did and whatever follows |
| YeditEdits.EqualContentHidesEdits | automation/plugins/modules/yedit.py:847-855 | content equal to the file makes the run ignore edits that would otherwise reach the file |
| YeditEdits.PresentIsIdempotent | automation/plugins/modules/yedit.py:844-887 | the same puts run again leave the file alone and report no change; with content given, a reported change is reported again |
| YeditEdits.PresentTwice | automation/plugins/modules/yedit.py:844-887 | a run with content and any edits, repeated: same file, same report, unless the edits are ignored the second time |
| YeditEdits.ContentReachesFile | automation/plugins/modules/yedit.py:844-887 | with content and edits, the file ends up as the edited content if and only if, where the edits are ignored, they would not alter it, and elsewhere they change something or the content is in the file already |
| YeditEdits.PresentWithoutEdits | automation/plugins/modules/yedit.py:889-894 | a run with a file and nothing to do reports a change again and again, unless content was given |
| YeditResults.NegativeIndex | automation/plugins/modules/yedit.py:294-395 | on a list that is found, index -k is the k-th element from the back: get, add, remove and change are the same at both indices, at any depth and whatever follows |
| YeditResults.IndexFromFront | automation/plugins/modules/yedit.py:386-395 | an index from the front returns the element there, or null behind the last |
| YeditResults.EntryUnderKey | automation/plugins/modules/yedit.py:386-395 | an entry of a dictionary is found under its key |
| YeditResults.FalsyValues | automation/plugins/modules/yedit.py:335-343 | the six values that `add_entry` takes as absent |
| YeditResults.AddComposes | automation/plugins/modules/yedit.py:333-364 | below a truthy entry that is found, adding is adding inside of it, with what it raises |
| YeditResults.AddRaisesAtOnce | automation/plugins/modules/yedit.py:333-372 | which exception the first step of an addition raises, on any value and for any step |
| YeditResults.PutAtRoot | automation/plugins/modules/yedit.py:661-702 | a put at the empty key replaces the document by a list or a dictionary only |
| YeditResults.AppendToList | automation/plugins/modules/yedit.py:595-612 | to a list that is found the value itself is appended as the last element |
| YeditResults.AppendToNothing | automation/plugins/modules/yedit.py:595-612 | where nothing is found a list of the value alone is made, or what putting a list there raises is raised |
| YeditResults.AppendToOther | automation/plugins/modules/yedit.py:595-612 | what is found and is no list stays |
| YeditResults.EditFrame | automation/plugins/modules/yedit.py:771-797 | no put, append or update that completes is seen at a key whose path parts from its own |
| YeditResults.UpdateMerges | automation/plugins/modules/yedit.py:622-629 | into a dictionary the entries of a dictionary are merged, the new ones win and the others stay; anything else raises |
| YeditResults.UpdateOfList | automation/plugins/modules/yedit.py:631-659 | a list that is found holds afterwards what its items become, or nothing happens, or it raises |
| YeditResults.UpdateReplacesFirst | automation/plugins/modules/yedit.py:635-646 | with a current value the first element equal to it becomes the new one, whatever index is given |
| YeditResults.UpdateAtIndex | automation/plugins/modules/yedit.py:641-646 | with an index the element there becomes the new one, from the back if negative; out of range raises |
| YeditResults.UpdateChangesNothing | automation/plugins/modules/yedit.py:635-659 | a current value that is absent, or the new one already, changes nothing; nor does an update of a scalar |
| YeditResults.PopFromDict | automation/plugins/modules/yedit.py:530-536 | the named entry goes from the dictionary found, and only it; an unhashable name raises |
| YeditResults.PopFromList | automation/plugins/modules/yedit.py:538-548 | the first equal element goes from the list found |
| YeditResults.PopFromOther | automation/plugins/modules/yedit.py:527-550 | nothing goes that is not there, nor from anything else |
| YeditResults.DeleteFromRootDict | automation/plugins/modules/yedit.py:267-275 | at the empty key of a dictionary: the named entry, or all of them; what raises |
| YeditResults.DeleteFromRootList | automation/plugins/modules/yedit.py:277-292 | at the empty key of a list: the first equal element, or the one at the index, or all of them; what raises |
| YeditResults.InvalidKeyDoesNothing | automation/plugins/modules/yedit.py:254-297 | a key the validator refuses finds nothing, and no method does anything |
| YeditResults.PresentWithValue | automation/plugins/modules/yedit.py:858-887 | with a value, `update` comes before `append` and `append` before a put, on the content given or the file |
| YeditResults.EditsInOrder | automation/plugins/modules/yedit.py:771-797 | two lists of edits after one another: the second starts from what the first leaves, and not at all if that raised |
| YeditResults.PresentWithEdits | automation/plugins/modules/yedit.py:876-887 | an edit list without a value is processed in order, unless content is given that is the document already |
| YeditResults.AbsentWithValue | automation/plugins/modules/yedit.py:829-842 | with `update` the value is popped, else the entry is deleted; a file without a document fails |
| YeditResults.AbsentEntryIsGone | automation/plugins/modules/yedit.py:829-842 | after a reported change the entry under a dictionary key is gone |
| YeditCursor.ReadIsVal | automation/plugins/modules/yedit.py:671-678 | reading a document out gives the value it stands for |
| YeditCursor.Build | automation/plugins/modules/yedit.py:671-678 | the copy is a fresh tree of objects for the same value |
| YeditCursor.Descend | automation/plugins/modules/yedit.py:386-393 | one turn of the reading loop follows the token, ends the search, or raises, exactly as the rest of the path demands |
| YeditCursor.GetEntry | automation/plugins/modules/yedit.py:374-395 | the cursor loop returns what the path finds, raises where it raises, and knows the place of what it found |
| YeditCursor.AddStep | automation/plugins/modules/yedit.py:333-351 | one turn of the building loop enters an entry, puts a new dictionary in place of an absent or falsy one, or raises, without changing what the whole addition yields |
| YeditCursor.AddEntry | automation/plugins/modules/yedit.py:321-372 | the loop that makes dictionaries on the way yields exactly the functional addition, or its exception |
| YeditCursor.AddLastEntry | automation/plugins/modules/yedit.py:353-372 | the last step appends, overwrites, sets or raises as specified |
| YeditCursor.RemoveStep | automation/plugins/modules/yedit.py:299-305 | one turn of the removing loop follows the token, ends without removing, or raises, as the rest of the path demands |
| YeditCursor.RemoveLastEntry | automation/plugins/modules/yedit.py:307-318 | the last step removes the entry from the whole document, or leaves it alone in every other outcome |
| YeditCursor.RemoveEntryAt | automation/plugins/modules/yedit.py:294-318 | the loop removes exactly the entry of the path, and leaves the document alone in every other outcome |
| YeditEditor.Yedit.Get | automation/plugins/modules/yedit.py:511-518 | returns what the key finds in the held document |
| YeditEditor.Yedit.Put | automation/plugins/modules/yedit.py:661-702 | failure-atomic: writes no object of the held document, keeps it on any exception or report of no change, and otherwise holds the functional put |
| YeditEditor.Yedit.AddToCopy | automation/plugins/modules/yedit.py:671-688 | the addition happens in a fresh copy |
| YeditEditor.Yedit.Append | automation/plugins/modules/yedit.py:595-612 | the in-place method agrees with its meaning on values |
| YeditEditor.Yedit.Update | automation/plugins/modules/yedit.py:614-659 | the in-place method agrees with its meaning on values |
| YeditEditor.Yedit.FindSlot | automation/plugins/modules/yedit.py:634-658 | the index logic picks the slot that the specified new list changes |
| YeditEditor.Yedit.Pop | automation/plugins/modules/yedit.py:520-550 | the in-place method agrees with its meaning on values |
| YeditEditor.Yedit.Delete | automation/plugins/modules/yedit.py:552-566 | the in-place method agrees with its meaning on values |
| YeditEditor.Yedit.Remove | automation/plugins/modules/yedit.py:265-318 | the removal of a key or of something at the root agrees with its meaning on values |
| YeditEditor.Yedit.RemoveAtRoot | automation/plugins/modules/yedit.py:267-292 | an empty key works on the root as specified |
| YeditEditor.Yedit.ProcessEdits | automation/plugins/modules/yedit.py:771-797 | the loop over the edits computes the fold; or raises what the first failing edit raises, with the document as the edits in front of it made it |
| YeditEditor.Yedit.Write | automation/plugins/modules/yedit.py:422-447 | the file holds the document |
| YeditEditor.RunPresent | automation/plugins/modules/yedit.py:844-897 | report and the file the object holds are those specified, for every argument combination |
| YeditEditor.RunAbsent | automation/plugins/modules/yedit.py:829-842 | report and the file the object holds are those specified |
| Tables.SetThenGet | console/service/internal/storage/cluster_flags.go:10-16 | the status bit that is set is read back |
| Tables.SetKeepsOtherBits | console/service/internal/storage/cluster_flags.go:10-12 | all bits but 0 and 3 stay |
| Tables.SetLosesBitThree | console/service/internal/storage/cluster_flags.go:7 | bit 3 is cleared with bit 0 |
| Tables.SetTwice | console/service/internal/storage/cluster_flags.go:10-12 | setting is idempotent |
| Tables.Storage.UpdateClusterRow | console/service/internal/storage/db_storage.go:483-496 | given columns change, absent ones stay, a missing row fails |
| Tables.Storage.UpdateServerRow | console/service/internal/storage/db_storage.go:791-808 | insert or merge of the reported row, then the recount |
| Tables.Storage.ResetServerRow | console/service/internal/storage/db_storage.go:810-825 | the reset columns of one row, or failure |
| Tables.Storage.CreateServerRow | console/service/internal/storage/db_storage.go:763-771 | insert, refused for a known address |
| Tables.Storage.UpdateOperationRow | console/service/internal/storage/db_storage.go:674-686 | status and log are written independently, and the log only by appending a line |
| Tables.Storage.RecountServers | console/db/migrations/20240520144338_2.0.0_initial_scheme_setup.sql:809-835 | the trigger sets the count of the cluster's servers |
| Tables.WhenStatementsFail | console/service/internal/storage/db_storage.go:483-808 | exactly when each statement fails: no row, no cluster, an address refused or taken, a status the check does not know |
| Topology.HealthyIff | console/service/internal/watcher/cluster_watcher.go:250-261 | healthy exactly when running and streaming members reach the count |
| Topology.AddressesAfter | console/service/internal/watcher/cluster_watcher.go:205-291 | after a pass with an answer: old and reported addresses, unreported old rows reset |
| Topology.UnreportedRow | console/service/internal/storage/db_storage.go:810-825 | every row that no accepted report names, and every row of a silent pass: role and status N/A, timeline, lag and tags null, the rest as before |
| Topology.ReportedRowKeeps | console/service/internal/storage/db_storage.go:791-802 | the location of a reported row stays, or is null in a new one; so do name and tags where no report has any |
| Topology.LastNameAndTags | console/service/internal/storage/db_storage.go:791-802 | the last report of a host with a name gives the name, the last one with tags the tags |
| Topology.ClusterAfterAnswer | console/service/internal/watcher/cluster_watcher.go:250-269 | the cluster row after an answer: degraded, unhealthy and healthy exactly as members and running members compare with the count; marked as reached; recounted |
| Topology.ClusterAfterSilence | console/service/internal/watcher/cluster_watcher.go:272-280 | the cluster row after silence: unavailable if the snapshot was reached, else as before; recounted |
| Topology.MembersCarryReports | console/service/internal/storage/db_storage.go:791-802 | the last report of a host decides its row, but for an empty name and absent tags |
| Topology.ReportTwice | console/service/internal/storage/db_storage.go:791-802 | the same reports again leave the row alone |
| Topology.RowsSettle | console/service/internal/watcher/cluster_watcher.go:205-291 | the rows of a pass, passed again with the same report, stay |
| Topology.OthersUntouched | console/service/internal/watcher/cluster_watcher.go:169-291 | no row of another cluster and no operation changes |
| Topology.PassAgain | console/service/internal/watcher/cluster_watcher.go:169-291 | repeating the pass changes the tables exactly when the renewed count is judged differently; a third pass never does |
| Topology.SecondPassChangesStatus | console/service/internal/watcher/cluster_watcher.go:250-269 | an input where it is: healthy after the first pass, unhealthy after the second |
| Topology.RepliesAgain | console/service/internal/watcher/cluster_watcher.go:169-291 | two passes with replies that agree, over the rows each finds, are the two passes of `PassAgain` |
| Topology.SilentPassAgain | console/service/internal/watcher/cluster_watcher.go:272-291 | without an answer all rows are reset and a cluster the snapshot knew as reached becomes unavailable; repeating changes something if and only if the table knew better than the snapshot |
| Topology.SameAnswer | console/service/internal/watcher/cluster_watcher.go:185-197 | if all answering servers report the same, the order of asking is no matter |
| Topology.FindAnswer | console/service/internal/watcher/cluster_watcher.go:185-197 | the answer is that of the first server in order that gives one, and there is none only if no server answers |
| Topology.WriteMembers | console/service/internal/watcher/cluster_watcher.go:205-269 | the loop over members writes them all, notes their hosts, counts and judges |
| Topology.ResetUnknown | console/service/internal/watcher/cluster_watcher.go:282-291 | the loop in arbitrary order resets exactly the addresses not noted |
| Topology.HandleClusterServers | console/service/internal/watcher/cluster_watcher.go:169-292 | the whole pass computes the specified tables |
| Lifecycle.ClusterKept | console/service/internal/storage/db_storage.go:483-496 | no step clears bit 0, sets unavailable without it, or sets deploying again |
| Lifecycle.JobsKept | console/service/internal/watcher/log_watcher.go:86-116 | what the log watcher has still to do is in progress or deleted |
| Lifecycle.HandlerKept | console/service/internal/controllers/cluster/post_cluster.go:248-294 | a create handler at work on a deploying cluster hands it on or fails it |
| Lifecycle.CreationSucceeds | console/service/internal/controllers/cluster/post_cluster.go:150-294 | a create handler that gets through leaves a deploying cluster with an operation in progress; for an existing cluster a ready one and no operation |
| Lifecycle.CreationFails | console/service/internal/controllers/cluster/post_cluster.go:248-294 | a create handler whose container does not start, or whose operation is not stored, leaves its cluster failed and writes nothing else |
| Lifecycle.OperationKept | console/service/internal/watcher/log_watcher.go:187-211 | an operation in progress stays, or the watcher is between its writes, or a removal has begun |
| Lifecycle.JobConcludes | console/service/internal/watcher/log_watcher.go:187-211 | the operation gets the status of its container, its cluster is failed exactly if that is failed, and ready otherwise |
| Lifecycle.WorkerReports | console/service/internal/watcher/cluster_watcher.go:250-280 | a worker writes the judged status with the flag over its snapshot, or unavailable alone, and that only if the snapshot was reached |
| Lifecycle.RemovalRemoves | console/service/internal/storage/db_storage.go:621-638 | a removal that gets through takes the cluster, its operations and its servers, and nothing else |
| Lifecycle.SingleSteps | console/service/internal/storage/db_storage.go:621-653 | a snapshot is the row found, a soft deletion marks the row alone, and a cluster row stays while an operation or a server refers to it |
| Lifecycle.InvKept | console/service/internal/watcher/log_watcher.go:86-232 | every step of every process keeps the whole invariant |
| Lifecycle.NoOrphanedDeployment | console/service/internal/controllers/cluster/post_cluster.go:150-294 | in every reachable state a deploying cluster has its create handler, an operation in progress or the log watcher at work, or its removal has begun, or one of the two writers failed; no failed write of a worker counts |
| Lifecycle.UnavailableImpliesReached | console/service/internal/watcher/cluster_watcher.go:262-280 | in every reachable state an unavailable cluster was reached before, in spite of stale snapshots |
| Lifecycle.DecisionsAreFinal | console/service/internal/storage/db_storage.go:664-686 | between any two states of a run: deploying is not re-entered, terminal statuses and stored lines stay, a reached cluster stays reached |
| Lifecycle.WritesAreSeparate | console/service/internal/watcher/log_collector.go:73-86 | status writes never touch a log, log writes never touch a status |
| Lifecycle.LogReadsBack | console/service/internal/storage/db_storage.go:674-679 | splitting the stored log and dropping the first, empty piece gives the stored lines in order |
| Lifecycle.LostWriteOrphans | console/service/internal/controllers/cluster/post_cluster.go:248-258 | from the initial state, a failed status write leaves a deploying cluster with no operation and nobody at work |
| Lifecycle.HalfRemovalOrphans | console/service/internal/storage/db_storage.go:621-638 | from the initial state, a removal that fails after its first statement leaves one too, with no failed status write |
| Lifecycle.HalfRemovalFrom | console/service/internal/storage/db_storage.go:621-638 | from any state, such a removal leaves an orphan if and only if no create handler, no other removal and not the log watcher is at work on the cluster |
| WatchPass.LiveIgnoresWrites | console/service/internal/storage/db_storage.go:598-609 | what handlers write touches neither filter nor order of the pages |
| WatchPass.LiveMeans | console/service/internal/storage/db_storage.go:598-609 | the list of a project holds its live clusters and no others |
| WatchPass.LiveAfterDelete | console/service/internal/storage/db_storage.go:598-609 | a deletion closes the gap in the one list that held the cluster, and changes no other |
| WatchPass.LiveAfterInsert | console/service/internal/storage/db_storage.go:598-609 | an insert goes into the one list of its project, in order, and changes no other |
| WatchPass.PageHolds | console/service/internal/watcher/cluster_watcher.go:96-126 | a page holds a cluster once if it is at one of the hundred places from the offset on, and not otherwise |
| WatchPass.InvKept | console/service/internal/watcher/cluster_watcher.go:86-148 | every step of dispatcher, handlers, inserts and deletions keeps the invariant |
| WatchPass.PoolIsRespected | console/service/internal/watcher/cluster_watcher.go:96-145 | at most as many handlers at work as the pool has places, in every interleaving |
| WatchPass.StepLaw | console/service/internal/watcher/cluster_watcher.go:86-148 | what the pass has done and still owes a cluster changes in a step by a push or a pull alone |
| WatchPass.RunLaw | console/service/internal/watcher/cluster_watcher.go:86-148 | the same over any run: handled, in hand and to come, plus pushes, is what was owed plus pulls |
| WatchPass.EachClusterOnce | console/service/internal/watcher/cluster_watcher.go:86-148 | after the final acquire nothing runs, and each cluster live at the start and not deleted was handled once, plus its pulls, minus its pushes, for inserts and deletions in any order |
| WatchPass.HarmlessIff | console/service/internal/watcher/cluster_watcher.go:86-148 | which inserts and deletions move no cluster over the edge |
| WatchPass.EachOnceIfHarmless | console/service/internal/watcher/cluster_watcher.go:86-148 | with such steps alone each cluster is handled exactly once |
| WatchPass.NeverTwice | console/service/internal/watcher/cluster_watcher.go:112-147 | no cluster, there from the start or inserted, is handled more often than once plus its pulls, whatever is deleted |
| WatchPass.InOrderPullsNobody | console/service/internal/watcher/cluster_watcher.go:112-147 | inserts in the order of their identifiers pull no cluster |
| WatchPass.DeletionSkipsOne | console/service/internal/watcher/cluster_watcher.go:117-146 | from every reachable state, a cluster once pushed is handled in no continuation more often than it is pulled |
| WatchPass.SecondPageCanLose | console/service/internal/watcher/cluster_watcher.go:117-146 | with more clusters than a page there is a complete pass that misses one |
| WatchPass.FirstPageCanRepeat | console/service/internal/watcher/cluster_watcher.go:117-146 | with a full page and a late insert there is a complete pass that handles one twice |
| WatchPass.CanFinish | console/service/internal/watcher/cluster_watcher.go:96-148 | from every reachable state some run finishes the pass: nothing waits for ever on the semaphore |
| JsonArray.ValuesOfListed | console/service/internal/watcher/log_watcher.go:135-142 | a closed list of documents decodes to them, whatever follows |
| JsonArray.ValuesUnfinished | console/service/internal/watcher/log_watcher.go:135-142 | an array that is not closed does not decode |
| JsonLog.CallbackModule.constructor | automation/plugins/callback/json_log.py:18-28 | with a path the file begins with an opening bracket, without one there is none |
| JsonLog.CallbackModule.RecordTaskResult | automation/plugins/callback/json_log.py:30-76 | a result is appended, set off from an earlier one |
| JsonLog.CallbackModule.OnStats | automation/plugins/callback/json_log.py:102-125 | the summary loop and the closing bracket |
| JsonLog.Log | automation/plugins/callback/json_log.py:18-125 | the file after any sequence of calls |
| JsonLog.SummaryStatus | automation/plugins/callback/json_log.py:107-117 | failed exactly when some host has failures or is unreachable |
| JsonLog.SummaryHosts | automation/plugins/callback/json_log.py:107-117 | the summary holds the last statistics of every host |
| JsonLog.FileDecodes | automation/plugins/callback/json_log.py:68-125 | for every sequence of calls, exactly when the file decodes, and to what |
| JsonLog.StoreEntity | console/service/internal/watcher/log_watcher.go:145-180 | what one record stores, and whether its summary is looked at |
| JsonLog.Conclude | console/service/internal/watcher/log_watcher.go:187-211 | the two status writes |
| JsonLog.CollectContainerLog | console/service/internal/watcher/log_watcher.go:118-232 | the loop over the records and the failure paths compute the specified tables |
| JsonLog.EndToEnd | console/service/internal/watcher/log_watcher.go:118-212 | from the play to the tables: the operation ends in success exactly when statistics came after a result and no host failed |
| JsonLog.ServersCollected | console/service/internal/watcher/log_watcher.go:147-166 | every server described is in the tables, and known rows stay |
| JsonLog.ConnectionInfoCollected | console/service/internal/watcher/log_watcher.go:167-176 | the connection info afterwards is the text of the last record of its task, or what it was if there is none |
| JsonLog.RowsCollected | console/service/internal/watcher/log_watcher.go:147-166 | the row of an address stays if there was one, else has name and location of the first record that describes it, else there is none |
| JsonLog.SummaryDecides | console/service/internal/watcher/log_watcher.go:178-212 | the last summary of a log gives the statuses of operation and cluster |
| JsonLog.WithoutSummary | console/service/internal/watcher/log_watcher.go:178-212 | a log without a summary fails both |
| JsonLog.NothingCollected | console/service/internal/watcher/log_watcher.go:126-142 | a log that is missing or does not decode fails operation and cluster and changes nothing else |
| QueryBuilder.Builder.Add | console/service/internal/storage/db_storage.go:556-595 | one optional filter grows text, arguments and position together |
| QueryBuilder.ConditionsAreNumbered | console/service/internal/storage/db_storage.go:550-596 | each given filter has one condition on its own column, numbers run up, and the argument of a number is that filter's value |
| QueryBuilder.MeaningPreserved | console/service/internal/storage/db_storage.go:550-596 | the built conditions select exactly the rows that every given filter selects |
| QueryBuilder.WherePlaceholders | console/service/internal/storage/db_storage.go:550-596 | the text uses the numbers from its position on, once each, in order |
| Decimal.NumeralsAreDecimal | console/service/internal/storage/db_storage.go:556-559 | placeholder numbers are decimal numerals |
| QueryBuilder.ClusterPlaceholders | console/service/internal/storage/db_storage.go:598-612 | both cluster queries use `$1` to `$n` once each with n arguments, and share their filter arguments |
| QueryBuilder.OperationPlaceholders | console/service/internal/storage/db_storage.go:700-745 | the same for both operation queries |
| QueryBuilder.SamePredicate | console/service/internal/storage/db_storage.go:550-596 | conditions read under the arguments with or without those of the page select the same rows |
| QueryMeaning.ClusterQueriesAgree | console/service/internal/storage/db_storage.go:550-612 | the texts of the count and the page query, read under their arguments, select exactly the live clusters of the project that have, column by column, what the fields of the request give |
| QueryMeaning.ClusterQueriesRead | console/service/internal/storage/db_storage.go:538-619 | what they ask for besides: the number, or the rows in the order of the request, with the limit and the offset given |
| QueryMeaning.OperationQueriesAgree | console/service/internal/storage/db_storage.go:698-745 | the same for operations: project, period and the four optional fields |
| QueryMeaning.OperationQueriesRead | console/service/internal/storage/db_storage.go:688-752 | the same for operations, by default with the highest identifier first |
| QueryBuilder.GetClusters | console/service/internal/storage/db_storage.go:538-619 | the two query texts and argument lists |
| QueryBuilder.GetOperations | console/service/internal/storage/db_storage.go:688-752 | the two query texts and argument lists |
| QueryBuilder.OrderByConverter | console/service/internal/storage/utils.go:87-114 | the loop builds the specified order text |
| QueryBuilder.OrderIsListed | console/service/internal/storage/utils.go:87-114 | whatever is asked for, the order text consists of listed columns, or is the default |
| QueryMeaning.OrderTextRead | console/service/internal/storage/utils.go:94-114 | the order text reads back as the listed columns of the fields asked for, in order, descending exactly behind a minus sign, or as the default |
| Paging.PagesConcatenate | console/service/internal/storage/db_storage.go:605-612 | the pages of one result at offsets 0, L, 2L and so on are the whole result |
| QueryMeaning.PagesAreTheTable | console/service/internal/storage/db_storage.go:538-619 | pages read each by its own query, in any order with the identifier among its keys, are together the clusters the request means: each once, in that order, as many as counted |
| QueryMeaning.PagesMakeArrangement | console/service/internal/storage/db_storage.go:603-612 | where the keys tell any two rows apart, pages taken from different arrangements are together one arrangement of all the rows |
| QueryMeaning.OneArrangement | console/service/internal/storage/db_storage.go:603-609 | rows any two of which the keys tell apart have one arrangement |
| QueryMeaning.ClusterListIsNamed | console/service/internal/storage/consts.go:32-43 | the listed columns of clusters are of the kind the laws on orders require |
| QueryMeaning.OperationListIsNamed | console/service/internal/storage/consts.go:45-54 | so are those of operations |
| QueryBuilder.UniqueOrder | console/service/internal/storage/db_storage.go:603-609 | a unique order column leaves one result order only |
| QueryBuilder.TiesLoseRows | console/service/internal/storage/consts.go:32-43 | two neighbours that tie have another correctly sorted result, with which pages show one of them twice and the other never |
| QueryBuilder.OnlyOrderIffUnique | console/service/internal/storage/consts.go:32-43 | a sorted result of different rows is the only one if and only if no two rows tie |
| ConfigText.MatchesMeansLines | console/ui/src/shared/model/validation.ts:10-13 | a text matches exactly when each line is a key, the delimiter and a value |
| ConfigText.AcceptedParses | console/ui/src/shared/lib/clusterValuesTransformFunctions.ts:33-42 | on accepted text the parser is defined and yields one pair a line |
| ConfigText.PrintParse | console/ui/src/shared/lib/clusterValuesTransformFunctions.ts:33-42 | printed pairs are accepted and parse back |
| ConfigText.LineMeans | console/ui/src/shared/lib/clusterValuesTransformFunctions.ts:36-40 | any line with a delimiter gives what is in front of the first one and what is behind it up to the next, both trimmed |
| ConfigText.TrimStrips | console/ui/src/shared/lib/clusterValuesTransformFunctions.ts:36-40 | what is trimmed away is white space, and what is left neither begins nor ends with any |
| ConfigText.ParseThrowsIff | console/ui/src/shared/lib/clusterValuesTransformFunctions.ts:33-42 | the parser throws if and only if some line has no delimiter |
| ConfigText.ParserLosesText | console/ui/src/shared/lib/clusterValuesTransformFunctions.ts:36-40 | the parser alone drops what follows a second delimiter, which the validator refuses |
| Regions.FindCloudImage | console/service/internal/convert/external_deployments.go:108-116 | the first image of the region, or none if there is none |
| Regions.DatacenterMeans | console/service/internal/convert/external_deployments.go:22-42 | name and description of the region, with its first own image, else the first one for all regions, else none |
| Regions.SortKeys | console/service/internal/convert/external_deployments.go:44-48 | the keys in strictly increasing order |
| Regions.LessIsLexicographic | console/service/internal/convert/external_deployments.go:44-48 | the first difference decides, and a text is below every text it begins |
| Regions.GroupRegions | console/service/internal/convert/external_deployments.go:22-56 | increasing codes, and under each its regions in input order with their images |
| Regions.OneStableSort | console/service/internal/convert/external_deployments.go:44-56 | a stable sort is a permutation and there is only one |
| Regions.GroupingIsStableSort | console/service/internal/convert/external_deployments.go:22-56 | the groups one after the other are the stable sort of the regions by group |

## Left out

- Loading, dumping, locking and renaming of files in `yedit.py`, the parsing of argument texts into values (`parse_value`, `get_curr_value`), and format attributes: library behaviour; values come parsed.
- Floating-point and date scalars, dictionary keys that are not strings, the order of dictionary entries, YAML anchors, and Python's `True == 1`: scalars compare structurally and a value put is a fresh tree.
- Digits outside ASCII in keys.
- `exists`, `create` and the listing state of `yedit.py`, the per-edit result list of `process_edits`, and the `debug` and `backup` arguments: they would add only easy members.
- YeditEditor.Yedit.Put: the copy is made by reading the value out and building it anew, as dumping and loading does.
- Cancellation of contexts, retries after failed page queries, and more than a thousand projects: a watch pass is modelled uncancelled and without failing reads.
- WatchPass.EachClusterOnce: a cluster inserted during the pass may be handled or not; that it is handled at most once plus its pulls is stated for it too, by the bound.
- Lifecycle.InvKept: server rows and connection information written by the log watcher are not part of the interleaved system, because no status depends on them; they are in the sequential log model.
- The create and remove handlers appear as the steps between their statements and not as methods; building of environment variables, extra variables, secrets and inventories is not modelled.
- Topology.HandleClusterServers: the cluster row exists during the pass, and only addresses without a row can be refused by the database; the conversion of lag values to integers and 32-bit overflow of member counts are not modelled.
- The deletion of a server row does not recount in the database, because the trigger looks at the new row; deletion of single servers is not modelled.
- JSON text of single documents, whitespace and escapes: documents are tokens of the log file; log level DEBUG, and result fields that do not have the type the reader expects.
- SQL beyond the statements of the two lists is not read. Times are numbers, a comparison with null is false, and the order of values is any that tells two values apart, whatever the collation.
- QueryBuilder.GetClusters: the block of `if` statements is a loop over the list of filters.
- The order of keys that a Go map yields is arbitrary in the model; `sort.Strings` is an insertion sort over the same order.
- Instance types and volumes of a provider, price arithmetic, user interface components, request logging, authorization and playbooks: mappings without laws of their own, or declarative.

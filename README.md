# django-nsync reconciliation engine, modelled in Dafny

django-nsync keeps Django model objects in step with rows that come from
external systems. This project models its reconciliation engine.

- A row is a string-keyed dict. Three keys are reserved: `action_flags`,
  `match_field_name` and `external_key`.
- The builder turns a row into a short list of actions:
  - plain create, update, delete and the do-nothing base action;
  - a delete that runs only when this system holds the object's only
    external reference;
  - wrappers that align or remove the row in the external-key mapping table.
- A policy runs the list: in order, grouped by type (create, update, delete),
  or inside a transaction.

The packaged code is `src/nsync/`. The earlier, unpackaged tree `nsync/` is
modelled beside it, with its own actions, builder, policies, sync records,
reference handler and the record handling of its `performsync` command.

The database is an abstract state. It holds three things:

- the stored objects, each a record from attribute name to value, keyed by
  model and primary key;
- the mapping table, keyed by (external system, external key) and pointing
  at a model and an object id that may dangle;
- the next primary key to hand out.

A schema says, per model, which attributes are plain columns (with their
defaults) and which are forward relations to another model. Errors the source
lets escape (`ValueError`, `KeyError`, `TypeError`, `AttributeError`,
`FieldError`, `MultipleObjectsReturned`) are values of a `Result`.

Each operation that changes the database has two parts:

- a specification function from the old state to the result and the new
  state;
- a method on the `Database` class that does what the source does, step by
  step, and is proved equal to that function.

The properties the source promises are lemmas about the specification
functions.

Modules, in dependency order:

- `Common`: the result type, values, truthiness, ordered dicts and string
  helpers.
- `Store`: schema, state, `filter`, `save`.
- `Intent`: `SyncActions` and its flag-string codec.
- `Fields`: `update_from_fields`.
- `Actions`, `ActionProperties`: the packaged actions.
- `Factory`: `ActionsBuilder` and `from_dict`.
- `Policies`: the packaged policies.
- `LegacyActions`, `LegacyPolicies`: the legacy actions, builder and
  policies.
- `LegacySync`: `SyncRecord`, `SyncInfo`.
- `LegacyModels`: `ExternalReferenceHandler`.
- `LegacyPerformSync`: the command's record reading and its update and
  delete passes.

## Model

| member | source | states |
|---|---|---|
| Intent.NewSyncActions | src/nsync/actions.py:297-307 | construction succeeds exactly when delete is not combined with create or update, otherwise raises `ValueError`; the intent keeps the four flags |
| Intent.ImpotentIff | src/nsync/actions.py:316-317 | an intent is impotent exactly when its encoding is empty or only `*`, i.e. none of c/u/d is set |
| Intent.Encode | src/nsync/actions.py:320-327 | the encoding holds `c`, `u`, `d`, `*` exactly when the corresponding flag is set |
| Intent.EncodeOrdered | src/nsync/management/commands/utils.py:69-76 | the encoding holds only flag characters, strictly in the order `c`, `u`, `d`, `*` |
| Intent.RoundTrip | src/nsync/actions.py:320-348 | decoding the encoding of any constructible intent gives that intent back |
| Intent.DecodeFlags | src/nsync/actions.py:330-348 | any string of flag characters decodes to the intent whose flags are exactly the letters it holds |
| Intent.DecodeCaseInsensitive | src/nsync/actions.py:338-343 | upper- or lower-casing a string does not change what it decodes to |
| Intent.DecodeIgnoresOthers | nsync/sync.py:174-190 | inserting any non-flag character anywhere does not change what a string decodes to |
| Intent.DecodeNonString | src/nsync/management/commands/utils.py:79-97 | a value that is not a string (such as 123) decodes to all flags off |
| Intent.DecodeFailsIff | nsync/actions.py:99-140 | decoding a string raises `ValueError` exactly when it asks for delete together with create or update |
| Intent.HasLetterUpper | src/nsync/actions.py:340-342 | upper-casing keeps whether a letter occurs in either case |
| Intent.HasLetterLower | src/nsync/actions.py:340-342 | lower-casing keeps whether a letter occurs in either case |
| Intent.StarUnchanged | src/nsync/actions.py:343 | changing case keeps whether `*` occurs |
| Store.Filter | src/nsync/actions.py:43-45 | the lookup raises `FieldError` exactly when it names a non-column; otherwise it finds exactly the objects of the model whose columns equal the lookup |
| Store.Only | src/nsync/actions.py:121 | `get()` of a one-element result is that element |
| Store.Database.Save | src/nsync/actions.py:101 | `save()` stores the record under the existing key, or under the next key, which it then advances; mappings unchanged |
| Fields.AssignPlain | src/nsync/actions.py:56-66 | the first loop computes the plain pass and gathers exactly the `base=>sub` lookups of the row |
| Fields.ResolveOne | src/nsync/actions.py:68-89 | one turn of the second loop is the resolution of that relation |
| Fields.ResolveRelations | src/nsync/actions.py:68-89 | the second loop computes the relation pass over the gathered lookups |
| Fields.UpdateFromFields | src/nsync/actions.py:50-89 | the method computes `ApplyFields`, the two passes in turn |
| Fields.PlainPassFailureSticks | src/nsync/actions.py:57-66 | once a prefix of the row raises, the whole pass raises the same error |
| Fields.PlainPassChanges | src/nsync/actions.py:57-66 | an attribute the plain pass changes is a model field named by a delimiter-free key, it gets that key's value, and unforced it was `None` or `''` before |
| Fields.UnforcedKeepsValues | src/nsync/actions.py:61-66 | unforced, an attribute that holds a value keeps it |
| Fields.DelimKeyNotAssigned | src/nsync/actions.py:58-60 | a key holding `=>` is never written as a plain attribute |
| Fields.PlainStepOther | src/nsync/actions.py:61-66 | writing one attribute leaves every other attribute unchanged |
| Fields.ForcedAssignsAll | src/nsync/actions.py:61-66 | forced, every model field named by a delimiter-free key ends up holding that key's value |
| Fields.PlainPassFails | src/nsync/actions.py:61-66 | the plain pass raises only when a relation is given something other than `None`, and always then unless it held a value and force is off |
| Fields.AddToGroupOther | src/nsync/actions.py:58-60 | gathering one `base=>sub` key leaves the other lookup entries unchanged |
| Fields.GroupHas | src/nsync/actions.py:58-60 | the lookups have an entry for (base, sub) exactly when some row key splits into base and sub |
| Fields.GroupValue | src/nsync/actions.py:58-60 | all sub-keys of one base share one lookup; each holds the value of the last row key that splits into it |
| Fields.JoinedKeyGrouped | src/nsync/actions.py:58-60 | the key `base=>sub` lands in the lookup for `base` under `sub` |
| Fields.ResolveStep | src/nsync/actions.py:68-89 | dealing with one more relation changes at most that relation |
| Fields.RelationSetIff | src/nsync/actions.py:68-89 | after success, an eligible relation points at the object its lookup found alone (none found or several: unchanged); every other attribute keeps the plain pass's value |
| Fields.RefPassFailsIff | src/nsync/actions.py:68-89 | after a successful plain pass, the update raises exactly when some eligible relation's lookup raises; finding none or several never raises |
| Actions.NewModelAction | src/nsync/actions.py:18-30 | construction succeeds exactly when the model is given and the match field name is a non-empty key of the fields, otherwise raises `ValueError` |
| Actions.ExecuteCreate | src/nsync/actions.py:93-102 | the method's outcome and new database equal the create specification |
| Actions.ExecuteUpdate | src/nsync/actions.py:119-127 | the method's outcome and new database equal the update specification |
| Actions.ExecuteDelete | src/nsync/actions.py:169-170 | the method's outcome and new database equal the delete specification |
| Actions.ExecuteDeleteIfOnlyReference | src/nsync/actions.py:142-161 | the method's outcome and new database equal the delete-if-only-reference specification |
| Actions.Execute | src/nsync/actions.py:184-217 | `execute()` of any action, wrappers included, equals its specification |
| ActionProperties.TypeCases | src/nsync/actions.py:138-140 | every type is one of `''`, create, update, delete, and it is the type of the innermost wrapped action |
| ActionProperties.ErrorLeavesStateUnchanged | src/nsync/actions.py:93-127 | an action that raises leaves the database as it was |
| ActionProperties.ValidPreserved | src/nsync/actions.py:98-101 | every action keeps all primary keys below the next one to hand out |
| ActionProperties.MappingsOnlyByWrappers | src/nsync/actions.py:142-217 | only the mapping-aware actions touch the mapping table; delete-if-only-reference never does, and removing a reference touches no object |
| ActionProperties.CreateReturnsExisting | src/nsync/actions.py:94-96 | when one object holds the match value, create returns it and writes nothing |
| ActionProperties.CreateRaisesOnMany | src/nsync/actions.py:94-96 | several matches make create raise `MultipleObjectsReturned` and write nothing |
| ActionProperties.MatchFieldFacts | src/nsync/actions.py:43-45 | a lookup that succeeded used a plain, delimiter-free match field whose value comes from the row |
| ActionProperties.ForcedPlainFields | src/nsync/actions.py:99-100 | after a forced update every plain field named by the row holds the row's value |
| ActionProperties.CreateAddsOne | src/nsync/actions.py:98-102 | with no match, create adds exactly one new object under the next key, leaves the others and the mappings alone, and the new object carries every plain field and is the only match |
| ActionProperties.CreateIdempotent | src/nsync/actions.py:93-102 | a second identical create returns the same object and writes nothing |
| ActionProperties.UpdateNoMatch | src/nsync/actions.py:126-127 | with no match, update returns `None` and writes nothing |
| ActionProperties.UpdateRaisesOnMany | src/nsync/actions.py:120-127 | several matches make update raise and write nothing |
| ActionProperties.UpdateOneMatch | src/nsync/actions.py:119-125 | with one match, update returns it and rewrites it alone; unforced, values already held stay; forced, every plain field of the row is written |
| ActionProperties.DeleteRemovesMatches | src/nsync/actions.py:169-170 | delete removes exactly the objects of the model with the match value, nothing else; afterwards nothing matches |
| ActionProperties.DeleteIfOnlyReferenceIff | src/nsync/actions.py:142-161 | the wrapped delete runs exactly when one object matches, exactly one row with this key points at it, and that row belongs to this system; otherwise nothing changes |
| ActionProperties.AlignPointsMapping | src/nsync/actions.py:184-202 | align returns the wrapped result; when that is an object the (system, key) row points at it and no other row changes; otherwise the table stays as it was |
| ActionProperties.DeleteExternalReferenceRemoves | src/nsync/actions.py:214-217 | exactly the (system, key) row is removed |
| Factory.MappableIff | src/nsync/actions.py:225-235 | mappable exactly when a system is set and the key is a string that is not blank after `strip` |
| Factory.BuildActions | src/nsync/actions.py:237-275 | the appending method computes the list `Build` describes |
| Factory.BuildFailsIff | src/nsync/actions.py:237-245 | `build` raises `ValueError` exactly when the model action cannot be constructed |
| Factory.BuildImpotent | src/nsync/actions.py:241-242 | an impotent intent gives the lone base model action |
| Factory.BuildDelete | src/nsync/actions.py:244-254 | the four delete shapes: nothing; a plain delete; delete-if-only-reference then removal of the reference; a plain delete then removal of the reference |
| Factory.BuildCreateUpdate | src/nsync/actions.py:256-273 | without delete, create precedes update, each appears exactly when its flag is set, each is wrapped once in align exactly when mappable, that wrapper carrying the builder's system, the model and the row's key, and update carries the force flag |
| Factory.BuildTypes | src/nsync/actions.py:237-275 | every action's type is `''` only for an impotent intent, otherwise one of the intent's flags |
| Factory.FromDictInPlace | src/nsync/actions.py:283-294 | the popping method returns what `from_dict` specifies and leaves the caller's dict as specified |
| Factory.PopsCompose | src/nsync/actions.py:287-289 | the three pops remove exactly the three reserved keys |
| Factory.FromDictBuilds | src/nsync/actions.py:283-294 | with both mandatory keys, `from_dict` is `build(decode(flags), match, key or None, rest)` with rest the row less exactly the reserved keys |
| Factory.FromDictRest | src/nsync/management/commands/utils.py:59-61 | what is left of the caller's dict is the row without the reserved keys |
| Factory.FromDictEmpty | src/nsync/management/commands/utils.py:56-57 | a missing or empty dict gives no actions and is left alone |
| Factory.FromDictMissingKeys | src/nsync/management/commands/utils.py:55-66 | a missing `action_flags` or `match_field_name` raises `KeyError` for that key |
| Policies.Bucket | src/nsync/policies.py:62-63 | the filter keeps only actions of the given type, all from the list, with order given by `BucketConcat` |
| Policies.BucketConcat | src/nsync/policies.py:60-65 | the filter is stable: the bucket of a concatenation is the concatenation of the buckets, so each bucket keeps the list's relative order |
| Policies.BucketWhole | src/nsync/policies.py:62-63 | a list wholly of the type is its own bucket, and a list with none of it gives an empty bucket |
| Policies.ExecuteBasic | src/nsync/policies.py:15-17 | running the list in order, stopping at the first error, equals `RunSeq` |
| Policies.ExecutePass | src/nsync/policies.py:62-65 | one pass runs the bucket of one type in order |
| Policies.ExecuteOrdered | src/nsync/policies.py:60-65 | the ordered policy runs the create, update and delete buckets in turn |
| Policies.ExecutePolicy | src/nsync/policies.py:32-34 | any policy, a transaction restoring the database on error, equals `Run` |
| Policies.RunSeqConcat | src/nsync/policies.py:15-17 | running a concatenation is running the first list, then the second unless the first raised |
| Policies.RunSeqStopsAtError | src/nsync/policies.py:15-17 | an escaping error comes from one action, which itself wrote nothing, and nothing after it ran |
| Policies.RunSeqValid | src/nsync/policies.py:15-17 | running a list keeps the database well formed |
| Policies.RunValid | src/nsync/policies.py:4-65 | every policy keeps the database well formed |
| Policies.TransactionAtomic | src/nsync/policies.py:32-34 | a transaction ends in the initial state when an error escapes, and in the wrapped policy's state otherwise |
| Policies.BucketCount | src/nsync/policies.py:62-63 | a bucket holds each action of its type as often as the list does, and no other |
| Policies.OrderedCounts | src/nsync/policies.py:60-65 | the ordered policy runs every create, update and delete action exactly as often as listed, and never a base action |
| Policies.OrderedSorted | src/nsync/policies.py:61 | in the ordered run every create precedes every update, and every update every delete |
| Policies.RunPair | src/nsync/policies.py:15-17 | two actions in a row run one after the other |
| Policies.BucketPair | src/nsync/policies.py:62-63 | the bucket of a pair keeps the members of the type, in order |
| Policies.BasicDeleteThenCreate | src/nsync/policies.py:46-52 | run in order, a forced delete then a create of the same row leaves exactly one object with the match value |
| Policies.OrderedCreateThenDelete | src/nsync/policies.py:46-52 | under the ordered policy the same pair leaves no object with the match value |
| LegacyActions.Construct | nsync/actions.py:38 | a constructed instance assigns every field of the model |
| LegacyActions.AssignAll | nsync/actions.py:48-49 | the `setattr` loop computes `SetAll` |
| LegacyActions.SetAllFailureSticks | nsync/actions.py:48-49 | once a prefix raises, the loop raises that error |
| LegacyActions.ExecuteLegacyCreate | nsync/actions.py:32-40 | the method equals the legacy create specification |
| LegacyActions.ExecuteLegacyUpdate | nsync/actions.py:43-54 | the method equals the legacy update specification |
| LegacyActions.ExecuteLegacy | nsync/actions.py:28-58 | `execute()` of any legacy action equals its specification |
| LegacyActions.BuildLegacy | nsync/actions.py:80-96 | the appending method computes `LegacyBuild` |
| LegacyActions.LegacyFromDictInPlace | nsync/sync.py:116-139 | the popping method returns what the legacy `from_dict` specifies and leaves the dict as specified |
| LegacyActions.LegacyBuildFailsIff | nsync/actions.py:5-11 | raises `ValueError` exactly for a missing model, a falsy match field name, or one not among the fields |
| LegacyActions.LegacyBuildShape | nsync/actions.py:80-96 | create, update, delete appear exactly when flagged, in that order, each at most once; the base action appears alone exactly when nothing is flagged |
| LegacyActions.LegacyFromDictBuilds | nsync/actions.py:68-78 | with both mandatory keys, `from_dict` is the legacy `build` of the decoded flags, the match name and the row less the reserved keys |
| LegacyActions.LegacyFromDictErrors | nsync/actions.py:68-74 | a missing or empty dict gives no actions; a missing mandatory key raises `KeyError` for it |
| LegacyActions.SetAllIsForcedPlainPass | nsync/actions.py:48-49 | the legacy loop is the packaged plain pass with force on |
| LegacyActions.LegacyCreateExisting | nsync/actions.py:34-36 | when the match value is taken, the legacy create returns `None` and writes nothing |
| LegacyActions.LegacyCreateNew | nsync/actions.py:38-40 | otherwise it adds exactly one new object holding every field of the row, or raises and writes nothing |
| LegacyActions.LookupDistinct | nsync/actions.py:25 | in a dict, the key of an entry finds that entry's value |
| LegacyActions.LegacyUpdateOne | nsync/actions.py:46-52 | on one match the legacy update writes every field of the row and nothing else, and returns the object |
| LegacyActions.LegacyUpdateNoneOrMany | nsync/actions.py:45-54 | no match returns `None`; several raise; neither writes |
| LegacyPolicies.KindBucket | nsync/policies.py:28 | the bucket keeps only actions of that kind, all from the list, with order given by `KindBucketConcat` |
| LegacyPolicies.KindBucketConcat | nsync/policies.py:26-30 | each bucket is stable: the bucket of a concatenation is the concatenation of the buckets |
| LegacyPolicies.KindBucketWhole | nsync/policies.py:28 | a list wholly of the kind is its own bucket, and a list with none of it gives an empty bucket |
| LegacyPolicies.ExecuteLegacyBasic | nsync/policies.py:8-10 | running legacy actions in order equals `LegacyRunSeq` |
| LegacyPolicies.ExecuteOrderedAsWritten | nsync/policies.py:26-30 | as written, the ordered policy raises `AttributeError` on any non-empty list before running anything |
| LegacyPolicies.OrderedAsWrittenRefusesCreate | nsync/policies.py:28 | as written a lone create is refused, where sorting by kind runs it |
| LegacyPolicies.ExecuteLegacyPass | nsync/policies.py:28-30 | one pass runs the bucket of one kind in order |
| LegacyPolicies.ExecuteLegacyOrdered | nsync/policies.py:26-30 | the corrected ordered policy runs creates, updates, deletes in turn |
| LegacyPolicies.ExecuteLegacyPolicy | nsync/policies.py:17-19 | any legacy policy, a transaction restoring the database on error, equals `LegacyRun`, whose ordered case is the corrected kind-sorting policy |
| LegacyPolicies.LegacyRunSeqConcat | nsync/policies.py:8-10 | running a concatenation is running the first list, then the second unless it raised |
| LegacyPolicies.LegacyTransactionAtomic | nsync/policies.py:17-19 | a legacy transaction is all or nothing |
| LegacyPolicies.KindBucketCount | nsync/policies.py:28 | a bucket holds each action of its kind as often as the list does |
| LegacyPolicies.LegacyOrderedCounts | nsync/policies.py:26-30 | corrected, every create, update and delete runs as often as listed, the base action never |
| LegacyPolicies.LegacyOrderedSorted | nsync/policies.py:27 | corrected, creates precede updates and updates precede deletes |
| LegacySync.NewSyncRecordIff | nsync/sync.py:194-203 | construction succeeds exactly when no keyword clashes with a parameter and the match field name is a non-empty string naming a keyword argument; the record keeps every argument |
| LegacySync.NewSyncRecordValueError | nsync/sync.py:195-198 | without clashes, a falsy or absent match field name raises `ValueError` |
| LegacySync.MappableIff | nsync/sync.py:205-206 | a record is mappable exactly when its key is truthy: a non-empty string, a non-zero number or a reference |
| LegacySync.NonDeleted | nsync/sync.py:226-227 | the non-deleted records are records of the list that do not delete |
| LegacySync.Deleted | nsync/sync.py:229-230 | the deleted records are records of the list that delete |
| LegacySync.SplitCounts | nsync/sync.py:223-230 | the two filters together hold every record exactly as often as the list does |
| LegacySync.NonDeletedConcat | nsync/sync.py:226-227 | the non-delete filter of a concatenation is the concatenation of the filters |
| LegacySync.DeletedConcat | nsync/sync.py:229-230 | the delete filter of a concatenation is the concatenation of the filters |
| LegacySync.Partition | nsync/sync.py:211-230 | the filters split all records as a multiset, each side has its predicate, and both keep order |
| LegacySync.OneOfEach | nsync/sync.py:226-230 | one keeping record and one deleting record: each filter returns just its own |
| LegacyModels.GetModelObject | nsync/models.py:88-97 | the lookup method computes `ModelObject` |
| LegacyModels.CreateOrUpdateForSyncRecord | nsync/models.py:99-145 | the method equals the create-or-update specification |
| LegacyModels.DeleteForSyncRecordAsWritten | nsync/models.py:147-150 | as written, deletion raises on reading `record.delete` and changes nothing |
| LegacyModels.DeleteForSyncRecord | nsync/models.py:147-161 | the method equals the corrected delete specification |
| LegacyModels.KeyMappingCases | nsync/models.py:69-86 | no mapping exactly for an unmappable record; the stored row when (system, key) has one; otherwise a fresh row for that pair |
| LegacyModels.ModelObjectCases | nsync/models.py:88-97 | the one match with its attributes, a fresh default instance for no match, `MultipleObjectsReturned` for several |
| LegacyModels.CreateOrUpdateErrorUnchanged | nsync/models.py:99-131 | whatever raises, nothing is saved |
| LegacyModels.CreateOrUpdateCreatesOnlyIfNone | nsync/models.py:99-131 | a new object is created, under the next key, exactly when none holds the match value; otherwise the set of objects is unchanged |
| LegacyModels.CreateOrUpdateFields | nsync/models.py:106-112 | every plain field of the record is written whatever was there; attributes the record does not name keep their values |
| LegacyModels.CreateOrUpdateRelations | nsync/models.py:114-126 | a `base=>sub` relation points at the related object its lookup finds alone, otherwise it is unchanged |
| LegacyModels.CreateOrUpdateMapping | nsync/models.py:133-145 | a mappable record's (system, key) row afterwards points at the saved object; the warning exactly when it pointed elsewhere; no other row changes; unmappable leaves the table alone |
| LegacyModels.DeleteAsWrittenRaises | nsync/models.py:148 | as written, a delete record with one match raises and deletes nothing, where the corrected version deletes the match |
| LegacyModels.UnmappableDeleteRaises | nsync/models.py:159-161 | with the flag read correctly, an unmappable delete record raises `AttributeError` after its object is gone; corrected, it deletes the object and stops |
| LegacyModels.DeleteIgnoresOthers | nsync/models.py:148-150 | a record that is not a delete changes nothing |
| LegacyModels.DeleteRemoves | nsync/models.py:152-161 | a delete record removes its unique match, if any, then its stored mapping row, if any, and nothing else; a lookup that raises changes nothing |
| LegacyPerformSync.SyncRecordsOf | nsync/management/commands/performsync.py:76-88 | a file gives at most one record per row |
| LegacyPerformSync.GetSyncRecords | nsync/management/commands/performsync.py:76-88 | the reading loop computes `SyncRecordsOf` |
| LegacyPerformSync.Upserts | nsync/management/commands/performsync.py:39-40 | one create-or-update step per record, in order |
| LegacyPerformSync.Removes | nsync/management/commands/performsync.py:47-48 | one delete step per record, in order |
| LegacyPerformSync.ApplyUpdates | nsync/management/commands/performsync.py:34-40 | the loop equals running the create-or-update steps of the file's non-delete records |
| LegacyPerformSync.ApplyDeletions | nsync/management/commands/performsync.py:42-48 | the loop equals running the delete steps of the file's delete records |
| LegacyPerformSync.Handle | nsync/management/commands/performsync.py:20-32 | the two loops equal running every file's updates, then every file's deletions |
| LegacyPerformSync.RunStepsConcat | nsync/management/commands/performsync.py:28-32 | running a concatenation of steps is running the first part, then the second unless the first raised |
| LegacyPerformSync.IsValidIff | nsync/management/commands/performsync.py:70-74 | valid exactly with at least four columns including the three mandatory ones; no header row raises `TypeError` |
| LegacyPerformSync.ParseLineMissingMatchField | nsync/management/commands/performsync.py:79 | a row without `match_field_name` raises `KeyError` |
| LegacyPerformSync.ParseLineDropsMandatory | nsync/management/commands/performsync.py:80-81 | a row whose match field names a mandatory column is dropped |
| LegacyPerformSync.ParseLineDropsUnknown | nsync/management/commands/performsync.py:82-83 | a row whose match field names none of its columns is dropped |
| LegacyPerformSync.ParseLineAccepts | nsync/management/commands/performsync.py:84-87 | an acceptable row becomes the record of its key, decoded flags, match field and the row less the mandatory columns |
| LegacyPerformSync.PopsMandatory | nsync/management/commands/performsync.py:79-86 | the three pops remove exactly the mandatory columns |
| LegacyPerformSync.FieldsFree | nsync/management/commands/performsync.py:87 | an accepted row's rest keeps its match field and no column named after a record parameter |
| LegacyPerformSync.ParseLineRecord | nsync/management/commands/performsync.py:84-87 | an accepted row's record names one of its fields as match field, and its fields are the row less the mandatory columns |
| LegacyPerformSync.SyncRecordsWellFormed | nsync/management/commands/performsync.py:76-88 | every record of a file is well formed and free of the mandatory columns |
| LegacyPerformSync.NoRowsNoRecords | nsync/management/commands/performsync.py:77-88 | a file without rows gives no records |
| LegacyPerformSync.SyncRecordsConcat | nsync/management/commands/performsync.py:78-88 | records keep their rows' order, and a row that raises ends the whole |
| LegacyPerformSync.UpdateStepsUpsert | nsync/management/commands/performsync.py:28-29 | the update passes hold only create-or-update steps of non-delete records |
| LegacyPerformSync.DeleteStepsRemove | nsync/management/commands/performsync.py:31-32 | the delete passes hold only delete steps of delete records |
| LegacyPerformSync.UpdatesBeforeDeletions | nsync/management/commands/performsync.py:25-32 | every create-or-update precedes every delete, whatever the order of the files, and a step is a create-or-update exactly for a non-delete record |
| LegacyPerformSync.DeleteWins | nsync/management/commands/performsync.py:26-27 | one file updating and another deleting: in either order of the files the delete runs last |

## Left out

- The ORM itself is a map-based state: query sets, managers, content types, cascades on delete and database constraints are not modelled.
- A model instance is a record value; Python object identity and aliasing between instances are not modelled.
- `filter` on a relation field or with a `related__field` lookup is modelled as `FieldError`, and relation lookups compare plain columns only.
- Logging is left out, except the legacy "mapping points elsewhere" warning, which is the boolean result of `CreateOrUpdateForSyncRecord`.
- The legacy warning compares object ids only, as the source does; the content type is left out of that comparison.
- `ExternalSystem` rows are left out: an external system is identified by its label (`get_or_create` by label always yields that system).
- File and command plumbing is not part of this model: argument parsing, directory scanning, `SyncFileAction`, `SyncInfoCollector`, `SyncRecordCSVFileChecker`, `csv.Sniffer`, `ModelFinder`, `SupportedFileChecker` and the `syncfile`/`syncfiles` commands.
- The CSV reader becomes its header (`Option<seq<string>>`) and its rows (ordered dicts). `DictReader`'s `restkey`/`restval` entries (a `None` key for surplus cells) are left out.
- `__str__` methods and `print` output are left out.
- Rolling back a transaction restores the whole state, including the next primary key. A real database does not reuse autoincrement keys after a rollback.
- `external_key.strip() is not ''` is modelled as string inequality. This is the evident intent; CPython's identity test on interned strings gives the same answer.
- `strip` removes the characters Python's `str.isspace` accepts, listed explicitly. Case mapping covers ASCII letters only; other Unicode case mappings are left out.
- `nsync/management/commands/performsync.py` imports `CsvSyncActionsDecoder` from `nsync.actions`, which does not define it, and `src/nsync/management/commands/utils.py` imports an `ActionFactory` that the packaged actions do not define. As written both imports fail. The model uses the one codec and `ActionsBuilder.build`.
- The legacy `is_impotent`, nested inside `__str__` and therefore unreachable, is left out. Legacy `build` checks for "no flag set" directly, as the source does.
- The `ModelAction` subclasses of `nsync/sync.py` have no `execute`. Only its builder and codec are modelled, by the legacy modules.
- Many-to-many fields, list-valued match fields, list-valued external keys and the newer API the tests target are not in this source and are not modelled.
- The legacy performsync command's `delete_for_sync_record` calls use the corrected deletion; the as-written deletion is modelled beside it (see Findings).
- The legacy `OrderedSyncPolicy` inside `LegacyRun` and `ExecuteLegacyPolicy` is the corrected policy that sorts by each action's kind; the as-written policy, which raises `AttributeError` on the first `a.type`, is modelled beside it as `OrderedAsWritten` and `ExecuteOrderedAsWritten` (see Findings).

## Findings

| source | as written | input that shows it | evidently intended | confidence | as-written member | corrected member |
|---|---|---|---|---|---|---|
| nsync/policies.py:28 | the ordered policy filters on `a.type`, which no legacy action defines | any non-empty list of legacy actions, e.g. one create: `AttributeError` before anything runs | run the create, update and delete actions in that order | not executed | LegacyPolicies.OrderedAsWrittenRefusesCreate | LegacyPolicies.LegacyOrderedSorted |
| nsync/models.py:148 | `delete_for_sync_record` tests `record.delete`, which `SyncRecord` does not have | any record, e.g. a delete record whose match value finds one object: `AttributeError`, nothing deleted | test `record.is_delete_record()` and delete the matched object | not executed | LegacyModels.DeleteAsWrittenRaises | LegacyModels.DeleteRemoves |
| nsync/models.py:159-161 | for an unmappable record, `get_or_construct_key_mapping` returns `(None, False)` and `None.delete()` is called | a delete record with an empty external key whose match value finds one object: the object is deleted, then `AttributeError` | skip the mapping when the record has none | not executed | LegacyModels.UnmappableDeleteRaises | LegacyModels.DeleteForSyncRecord |

# AWS SDK for .NET (3.5 build): persistence rules, protocol marshalling and field presence

This Dafny project models four groups of sequential, self-contained logic from the AWS SDK for .NET. It proves what each one promises.

1. **DynamoDB object persistence** (`ContextInternal.cs`). Covered:
   - optimistic-version bumping;
   - table-name composition from an override and a prefix;
   - checks between a type's key schema and a table's;
   - the "should this entry be saved" filter;
   - object-to-document population, including keys-only mode;
   - conversion of a collection into a single-typed primitive list;
   - query-filter composition and query-index inference;
   - key construction and key validation.
2. **Request marshallers** for the query protocol. Each one emits an ordered, de-duplicated parameter list: `Action` and `Version` first, then each optional member only when it is set, and lists expanded to 1-based `Name.N` or `Name.member.N`. One JSON-protocol marshaller (Storage Gateway `CreateSnapshot`) sets two fixed headers, an empty resource path and a JSON body.
3. **Streaming response unmarshallers.** Each one is a loop over a depth-tracked token cursor. It dispatches on element names at one depth and stops once it leaves its subtree. Each `UnmarshallException` maps an error code to a typed fault by exact match, with a generic fallback. The lazy and eager singletons are modelled too.
4. **Field presence on request and result types.** A `bool?` member's `IsSet` is separate from the value its getter returns. A string is set iff it is non-null. A list or dictionary is set iff it is non-null and non-empty.

## How the model is stated

- **Types not shown in the source.** These are modelled explicitly:
  - the token cursor (`Cursor.UnmarshallerContext`): a sequence of tokens carrying kind, name, depth and text;
  - `Read` moves one token on, and `ReadAtDepth(d)` is `Read()` plus the new depth being at least `d`;
  - the depth before the first token and past the last is 0;
  - the leaf unmarshallers decode the current token's text in place;
  - a nested unmarshaller consumes exactly the subtree rooted at the current token.
- **Last match wins.** An unmarshaller loop overwrites a member at every match, so the member ends up holding the last match. Where a loop steps straight to certain positions, a ghost predicate names the positions the loop tests. That is `LastHit` over all tokens, `Visited` for the JSON loop that steps over values, and `ResultTested`, `MainTested` and `AttributesTested` for the XML loops that step over subtrees. The lemmas state that the last tested match sets the member, and that with no match it keeps its value.
- **Each imperative routine is a method proved against a specification function.** The method keeps the source's steps and loops; the function expresses the same loop as an accumulator recursion. The properties are lemmas about those functions. Examples:
  - `SetNewVersion` and `NextVersion`;
  - `PopulateItemStorage` and `PopulateFrom`;
  - each `Unmarshall` and its `Loop`;
  - each `Marshall` and its `Parameters`.
- **Object state.** Request and result types whose setters change fields are classes with `Option` fields. Each one also has a module-level method that builds a fresh object, assigns to it and reports only what its getters and `IsSet` checks observe.
- **DynamoDB data.**
  - A document is a `map<string, Entry>`.
  - An entry is `Null`, a primitive (kind plus optional payload), a primitive list, or an unrecognised kind.
  - A property storage is a record of its flags and index names.
  - An object is a map from property name to value, and a value carries its runtime C# type. So the integral casts and the list and byte-array cases are exact.
- **Integers are unbounded.** C# widths are explicit:
  - a stored version is range-checked against its member type;
  - `int`, `uint`, `long` and `ulong` wrap when incremented;
  - `byte`, `sbyte`, `short` and `ushort` are promoted to `int` and do not wrap.
- **Collections.** `Dictionary` parameter and header collections are modelled as a sequence in insertion order (parameters) and a map (headers). `Dictionary.Add` with a name already present is a precondition of `WireRequest.AddParameter`, and every marshaller is proved to meet it.

## Model

| member | source | states |
|---|---|---|
| DynamoModel.GetPropertyStorage | AWSSDK_DotNet35/Amazon.DynamoDBv2/DataModel/ContextInternal.cs:159 | the property storage returned carries the requested name and is one of the config's; an unknown name is an InvalidOperation error, and only then |
| DynamoModel.FindProperty | AWSSDK_DotNet35/Amazon.DynamoDBv2/DataModel/ContextInternal.cs:159 | a configured property storage with the name, or None exactly when no property has it |
| DynamoModel.FindPropertyFirst | AWSSDK_DotNet35/Amazon.DynamoDBv2/DataModel/ContextInternal.cs:159 | the property storage found is the first in the list with the name: no earlier one carries it |
| DynamoModel.ItemStorage.constructor | AWSSDK_DotNet35/Amazon.DynamoDBv2/DataModel/ContextInternal.cs:253 | a new storage holds the config, an empty document and no current version |
| DynamoVersioning.IncrementIsSuccessor | AWSSDK_DotNet35/Amazon.DynamoDBv2/DataModel/ContextInternal.cs:63-70 | `AsXxx() + 1` is n + 1, except at the maximum of int, uint, long and ulong, where it wraps to the minimum; byte, sbyte, short and ushort are promoted to int and never wrap |
| DynamoVersioning.AsIntegral | AWSSDK_DotNet35/Amazon.DynamoDBv2/DataModel/ContextInternal.cs:63-70 | a decoded version always lies in the range of the member's C# type |
| DynamoVersioning.SetNewVersion | AWSSDK_DotNet35/Amazon.DynamoDBv2/DataModel/ContextInternal.cs:35-59 | only the version attribute changes, to the value NextVersion gives; with no version property nothing changes; an error leaves the document as it was |
| DynamoVersioning.NoVersionNoChange | AWSSDK_DotNet35/Amazon.DynamoDBv2/DataModel/ContextInternal.cs:37 | without a version property nothing is written |
| DynamoVersioning.MissingVersionStartsAtZero | AWSSDK_DotNet35/Amazon.DynamoDBv2/DataModel/ContextInternal.cs:43-57 | an absent, non-primitive or null-valued version is replaced by numeric "0" |
| DynamoVersioning.NonNumericVersionFails | AWSSDK_DotNet35/Amazon.DynamoDBv2/DataModel/ContextInternal.cs:50 | a stored version whose type is not Numeric raises InvalidOperationException |
| DynamoVersioning.PaddedVersionText | AWSSDK_DotNet35/Amazon.DynamoDBv2/DataModel/ContextInternal.cs:60-70 | a stored version text with surrounding white space and a + sign reads as its number |
| DynamoVersioning.VersionIncrements | AWSSDK_DotNet35/Amazon.DynamoDBv2/DataModel/ContextInternal.cs:51-71 | a stored integral version n of member type t becomes Increment(t, n), written back under the version attribute |
| DynamoVersioning.NonIntegralVersionKept | AWSSDK_DotNet35/Amazon.DynamoDBv2/DataModel/ContextInternal.cs:60-71 | a version member of no integral type keeps the stored number unchanged |
| DynamoVersioning.ByteVersionOutgrowsItsType | AWSSDK_DotNet35/Amazon.DynamoDBv2/DataModel/ContextInternal.cs:63 | a byte version at 255 is written as 256, because the sum is an int |
| DynamoTables.GetTableName | AWSSDK_DotNet35/Amazon.DynamoDBv2/DataModel/ContextInternal.cs:130-143 | a null config is ArgumentNullException("flatConfig") and only that fails; otherwise the result is the prefix (empty when unset) followed by the override when it is non-empty, else the base name |
| DynamoTables.OverrideIgnoresBaseName | AWSSDK_DotNet35/Amazon.DynamoDBv2/DataModel/ContextInternal.cs:137-138 | with a non-empty override, any two base names give the same table name |
| DynamoTables.PlainBaseName | AWSSDK_DotNet35/Amazon.DynamoDBv2/DataModel/ContextInternal.cs:135-142 | without override and prefix the base name is returned unchanged |
| DynamoTables.CompareKeys | AWSSDK_DotNet35/Amazon.DynamoDBv2/DataModel/ContextInternal.cs:151-165 | passes iff the counts agree and every key property's attribute is among the table's key attributes; a count mismatch is reported as such, otherwise the first unmatched property is reported |
| DynamoTables.ValidateConfigAgainstTable | AWSSDK_DotNet35/Amazon.DynamoDBv2/DataModel/ContextInternal.cs:145-165 | passes iff both hash and range keys correspond; a failure is the hash check's error (count mismatch, or the first hash property whose attribute is not a table key), and only once the hash keys correspond the range check's error of the same kinds |
| DynamoConversion.ShouldSaveTable | AWSSDK_DotNet35/Amazon.DynamoDBv2/DataModel/ContextInternal.cs:172-191 | an unrecognised entry, and only that, raises InvalidOperationException; null is saved iff nulls are not ignored; a primitive is saved iff its value is non-null and a list iff it has entries |
| DynamoConversion.ShouldSaveIgnoreNullsOnlyDropsNull | AWSSDK_DotNet35/Amazon.DynamoDBv2/DataModel/ContextInternal.cs:174-180 | ignoring nulls only drops entries, and only null ones |
| DynamoConversion.TryToPrimitive | AWSSDK_DotNet35/Amazon.DynamoDBv2/DataModel/ContextInternal.cs:486-524 | no conversion exactly for non-primitive member types; a converted primitive has the member type's kind and a null value exactly for a null object |
| DynamoConversion.ElementsOf | AWSSDK_DotNet35/Amazon.DynamoDBv2/DataModel/ContextInternal.cs:398-402 | a string is never enumerated as a collection; a byte array yields one element per byte |
| DynamoConversion.PrimitiveListKeepsOrder | AWSSDK_DotNet35/Amazon.DynamoDBv2/DataModel/ContextInternal.cs:416-437 | items whose conversions succeed give a list with one entry per item, each the item's own primitive and in the same order; an empty collection is a String list, otherwise the element type's kind |
| DynamoConversion.ConvertItemsSucceeds | AWSSDK_DotNet35/Amazon.DynamoDBv2/DataModel/ContextInternal.cs:418-433 | the foreach over items that all convert succeeds with their primitives appended in order |
| DynamoConversion.PrimitiveListNeverMixes | AWSSDK_DotNet35/Amazon.DynamoDBv2/DataModel/ContextInternal.cs:422-423 | the mixed-type error is never raised, because one element type fixes one primitive kind |
| DynamoConversion.ConvertItemsNeverMixes | AWSSDK_DotNet35/Amazon.DynamoDBv2/DataModel/ContextInternal.cs:418-433 | the loop never reports mixed list types from any starting state |
| DynamoConversion.StringIsNeverAList | AWSSDK_DotNet35/Amazon.DynamoDBv2/DataModel/ContextInternal.cs:401-414 | a string never becomes a list; it comes back as a single primitive only when allowed and the element type is string |
| DynamoConversion.TryToPrimitiveList | AWSSDK_DotNet35/Amazon.DynamoDBv2/DataModel/ContextInternal.cs:387-438 | the loop as written returns what PrimitiveListOf specifies |
| DynamoConversion.ToEntry | AWSSDK_DotNet35/Amazon.DynamoDBv2/DataModel/ContextInternal.cs:320-341 | a successful conversion is never an unrecognised entry, and the result is null exactly for a null value |
| DynamoConversion.PrimitiveMemberIsPrimitive | AWSSDK_DotNet35/Amazon.DynamoDBv2/DataModel/ContextInternal.cs:329-332 | a primitive member type converts a non-null value to a non-null primitive of its own kind, never a list |
| DynamoConversion.ToDynamoDBEntry | AWSSDK_DotNet35/Amazon.DynamoDBv2/DataModel/ContextInternal.cs:316-341 | the method returns what ToEntry specifies |
| DynamoPopulate.PopulateItemStorage | AWSSDK_DotNet35/Amazon.DynamoDBv2/DataModel/ContextInternal.cs:257-292 | the storage ends with the document and current version PopulateFrom gives, and the method reports PopulateFrom's error, if any |
| DynamoPopulate.ObjectToItemStorage | AWSSDK_DotNet35/Amazon.DynamoDBv2/DataModel/ContextInternal.cs:251-256 | a fresh storage with the config, populated from an empty document |
| DynamoPopulate.StepOutcome | AWSSDK_DotNet35/Amazon.DynamoDBv2/DataModel/ContextInternal.cs:268-287 | one property either raises, leaves document and version alone, or stores the entry it converts to and, for a version property, records it as CurrentVersion |
| DynamoPopulate.PopulateProvenance | AWSSDK_DotNet35/Amazon.DynamoDBv2/DataModel/ContextInternal.cs:262-287 | every attribute added or changed was written by a configured property that is not skipped and whose converted entry passes ShouldSave |
| DynamoPopulate.KeysOnlyWritesOnlyKeys | AWSSDK_DotNet35/Amazon.DynamoDBv2/DataModel/ContextInternal.cs:266 | in keys-only mode every written attribute comes from a hash, range or version property |
| DynamoPopulate.WrittenEntriesAreSaved | AWSSDK_DotNet35/Amazon.DynamoDBv2/DataModel/ContextInternal.cs:276-283 | every written entry passes ShouldSave, and no hash, range, version or LSI-range property writes a primitive list |
| DynamoPopulate.WritesOnlyConfiguredAttributes | AWSSDK_DotNet35/Amazon.DynamoDBv2/DataModel/ContextInternal.cs:262-283 | the document gains no attribute names outside the configured ones |
| DynamoPopulate.PopulateTracksVersion | AWSSDK_DotNet35/Amazon.DynamoDBv2/DataModel/ContextInternal.cs:285-286 | when the version properties are exactly those stored under the version attribute, CurrentVersion stays the primitive stored there |
| DynamoPopulate.FreshStorageVersion | AWSSDK_DotNet35/Amazon.DynamoDBv2/DataModel/ContextInternal.cs:253-286 | for a fresh storage, CurrentVersion is the version entry that was saved, if any |
| DynamoPopulate.KeyPropertyListRejected | AWSSDK_DotNet35/Amazon.DynamoDBv2/DataModel/ContextInternal.cs:278-282 | a key-like property converting to a non-empty primitive list stops population with InvalidOperationException and writes nothing |
| DynamoQuery.PropertyNamed | AWSSDK_DotNet35/Amazon.DynamoDBv2/DataModel/ContextInternal.cs:655 | the property a condition names is a configured property of that name; a null name is rejected as a null dictionary key |
| DynamoQuery.ConvertValuesFromSpec | AWSSDK_DotNet35/Amazon.DynamoDBv2/DataModel/ContextInternal.cs:680-685 | values convert one to one and in order after those already converted; conversion fails iff some value fails to convert or is null |
| DynamoQuery.ConditionValuesSpec | AWSSDK_DotNet35/Amazon.DynamoDBv2/DataModel/ContextInternal.cs:677-687 | one converted entry per value, in order; fails iff some value fails to convert or is null |
| DynamoQuery.ConvertConditionValues | AWSSDK_DotNet35/Amazon.DynamoDBv2/DataModel/ContextInternal.cs:677-687 | a null value array is a NullReference; otherwise the loop returns what ConditionValues specifies |
| DynamoQuery.AddConditionsLoop | AWSSDK_DotNet35/Amazon.DynamoDBv2/DataModel/ContextInternal.cs:649-673 | each condition loop returns what AddConditions specifies |
| DynamoQuery.ComposeQueryFilterHelper | AWSSDK_DotNet35/Amazon.DynamoDBv2/DataModel/ContextInternal.cs:624-675 | the method returns the filter and candidate index names QueryFilterOf specifies, including its error cases |
| DynamoQuery.AddConditionsShape | AWSSDK_DotNet35/Amazon.DynamoDBv2/DataModel/ContextInternal.cs:652-662 | each condition gives one filter condition, in order, on its property's attribute with its operator and converted values |
| DynamoQuery.IndexCandidatesOrigin | AWSSDK_DotNet35/Amazon.DynamoDBv2/DataModel/ContextInternal.cs:656-659 | a name is a candidate index iff some key condition's property offers it: an LSI/GSI index name, or the table itself for a range key |
| DynamoQuery.FilterState | AWSSDK_DotNet35/Amazon.DynamoDBv2/DataModel/ContextInternal.cs:647 | the QueryFilter the AddCondition calls leave holds one condition per attribute, each keyed by its own attribute name |
| DynamoQuery.FilterStateLastWins | AWSSDK_DotNet35/Amazon.DynamoDBv2/DataModel/ContextInternal.cs:647-671 | an attribute is in the filter iff some AddCondition call names it, and then it holds the condition of the last such call |
| DynamoQuery.QueryFilterHashAttribute | AWSSDK_DotNet35/Amazon.DynamoDBv2/DataModel/ContextInternal.cs:642-674 | the returned filter always holds the hash attribute, with the hash-key equality unless a later key or query-filter condition names the same attribute |
| DynamoQuery.QueryFilterShape | AWSSDK_DotNet35/Amazon.DynamoDBv2/DataModel/ContextInternal.cs:642-674 | a successful filter needs exactly one hash key; its AddCondition calls are the hash-key equality on the hash attribute, then one per key condition and one per query-filter condition; without key conditions there are no candidate indexes |
| DynamoQuery.Distinct | AWSSDK_DotNet35/Amazon.DynamoDBv2/DataModel/ContextInternal.cs:694 | the same names without duplicates, never longer |
| DynamoQuery.DistinctSingle | AWSSDK_DotNet35/Amazon.DynamoDBv2/DataModel/ContextInternal.cs:694-697 | de-duplication leaves one name exactly when all candidates are the same name |
| DynamoQuery.IndexInferredFromSingleCandidate | AWSSDK_DotNet35/Amazon.DynamoDBv2/DataModel/ContextInternal.cs:697-700 | with no index specified and a single distinct candidate, that candidate is used, or the table when it is the empty NO_INDEX |
| DynamoQuery.SpecifiedCandidateUsed | AWSSDK_DotNet35/Amazon.DynamoDBv2/DataModel/ContextInternal.cs:701-713 | a specified index among the candidates is used |
| DynamoQuery.NoIndexInferredFails | AWSSDK_DotNet35/Amazon.DynamoDBv2/DataModel/ContextInternal.cs:705-706 | candidates that neither single out an index nor contain the specified one raise InvalidOperationException |
| DynamoQuery.NoCandidatesUsesSpecified | AWSSDK_DotNet35/Amazon.DynamoDBv2/DataModel/ContextInternal.cs:719-725 | without candidates the specified index is used, or the table when none is specified |
| DynamoQuery.IndexNameNeverMismatches | AWSSDK_DotNet35/Amazon.DynamoDBv2/DataModel/ContextInternal.cs:709-717 | the specified-versus-inferred mismatch error is never raised, and a chosen index is non-empty and is the specified one or a candidate |
| DynamoQuery.CreateQueryConditions | AWSSDK_DotNet35/Amazon.DynamoDBv2/DataModel/ContextInternal.cs:728-743 | one condition with the operator and values on the table's first range key, or on the range key of the specified index; a null value array or an unknown index is an error, and only these |
| DynamoKeys.MissingKeyFromPass | AWSSDK_DotNet35/Amazon.DynamoDBv2/DataModel/ContextInternal.cs:757-768 | the loop over one list of key properties passes iff every one of their attributes is in the key |
| DynamoKeys.MissingKeyFromNames | AWSSDK_DotNet35/Amazon.DynamoDBv2/DataModel/ContextInternal.cs:761-767 | a failure names a property of the list: as an unknown property, or as a missing hash or range key |
| DynamoKeys.KeyCheckPass | AWSSDK_DotNet35/Amazon.DynamoDBv2/DataModel/ContextInternal.cs:751-769 | ValidateKey passes iff key and config are given, the key is non-empty and it has the attribute of every hash and range key property |
| DynamoKeys.ValidateKey | AWSSDK_DotNet35/Amazon.DynamoDBv2/DataModel/ContextInternal.cs:751-769 | the method returns what KeyCheck specifies |
| DynamoKeys.KeyOf | AWSSDK_DotNet35/Amazon.DynamoDBv2/DataModel/ContextInternal.cs:771-797 | fails unless there is exactly one hash key and at most one range key; a built key maps the hash attribute, and the range attribute when there is a range key, to their converted values and nothing else |
| DynamoKeys.MadeKeyIsValid | AWSSDK_DotNet35/Amazon.DynamoDBv2/DataModel/ContextInternal.cs:798 | a key MakeKey builds always passes ValidateKey |
| DynamoKeys.MakeKey | AWSSDK_DotNet35/Amazon.DynamoDBv2/DataModel/ContextInternal.cs:771-800 | the method returns what KeyOf specifies |
| Cursor.UnmarshallerContext.Read | AWSSDK_DotNet35/Amazon.SimpleWorkflow/Model/Internal/MarshallTransformations/CancelWorkflowExecutionFailedEventAttributesUnmarshaller.cs:45 | moves one token on and reports whether one was read |
| Cursor.UnmarshallerContext.ReadAtDepth | AWSSDK_DotNet35/Amazon.StorageGateway/Model/Internal/MarshallTransformations/DeviceiSCSIAttributesUnmarshaller.cs:42 | moves one token on and reports whether a token at least d deep was read |
| Cursor.UnmarshallerContext.ReadSubtree | AWSSDK_DotNet35/Amazon.ElasticTranscoder/Model/Internal/MarshallTransformations/ListPipelinesResponseUnmarshaller.cs:53-54 | a nested unmarshaller consumes exactly the subtree rooted at the current token |
| Cursor.LastHit | AWSSDK_DotNet35/Amazon.StorageGateway/Model/Internal/MarshallTransformations/DeviceiSCSIAttributesUnmarshaller.cs:42-69 | the last matching position in a range, or None when no position in it matches |
| Cursor.SubtreeEnd | AWSSDK_DotNet35/Amazon.ElasticTranscoder/Model/Internal/MarshallTransformations/ListPipelinesResponseUnmarshaller.cs:53-54 | the end of the run of tokens deeper than the current one |
| Cursor.IntegerValue | AWSSDK_DotNet35/Amazon.StorageGateway/Model/Internal/MarshallTransformations/DeviceiSCSIAttributesUnmarshaller.cs:59 | a decoded number lies in the target range, and decoding succeeds iff the text is a decimal number within the target range |
| Cursor.IntegerValueNeverWraps | AWSSDK_DotNet35/Amazon.SimpleWorkflow/Model/Internal/MarshallTransformations/CancelWorkflowExecutionFailedEventAttributesUnmarshaller.cs:58 | a number outside the target range is rejected rather than truncated |
| Cursor.IntegerValueRoundTrip | AWSSDK_DotNet35/Amazon.SimpleWorkflow/Model/Internal/MarshallTransformations/CancelWorkflowExecutionFailedEventAttributesUnmarshaller.cs:58 | a number in range written in decimal decodes back to itself |
| Cursor.BoolValue | AWSSDK_DotNet35/Amazon.StorageGateway/Model/Internal/MarshallTransformations/DeviceiSCSIAttributesUnmarshaller.cs:65 | `true`/`True` decode to true and `false`/`False` to false, a missing text is NullText, and every other text fails, including other spellings bool.Parse accepts |
| ServiceErrors.FaultFrom | AWSSDK_DotNet35/Amazon.ElasticLoadBalancing/Model/Internal/MarshallTransformations/DescribeLoadBalancerAttributesResponseUnmarshaller.cs:91-99 | a fault keeps the envelope's message, type, code and request id, and the given inner exception and status code, unchanged |
| ServiceErrors.Lookup | AWSSDK_DotNet35/Amazon.ElasticTranscoder/Model/Internal/MarshallTransformations/ListPipelinesResponseUnmarshaller.cs:66-82 | the kind of a code matched exactly in a table of distinct codes, the fallback when no code matches, and never anything else |
| ServiceErrors.LookupOrderIndependent | AWSSDK_DotNet35/Amazon.ElasticTranscoder/Model/Internal/MarshallTransformations/ListPipelinesResponseUnmarshaller.cs:66-81 | reordering a table of distinct codes changes no lookup |
| ElbDescribeLoadBalancerAttributes.MainLoopExit | AWSSDK_DotNet35/Amazon.ElasticLoadBalancing/Model/Internal/MarshallTransformations/DescribeLoadBalancerAttributesResponseUnmarshaller.cs:41-43 | the loop ends at the end of input or at the first token above depth d |
| ElbDescribeLoadBalancerAttributes.MainLoopMetadataFrom | AWSSDK_DotNet35/Amazon.ElasticLoadBalancing/Model/Internal/MarshallTransformations/DescribeLoadBalancerAttributesResponseUnmarshaller.cs:41-55 | a changed ResponseMetadata is the subtree of a ResponseMetadata start element at depth 2 met by the loop |
| ElbDescribeLoadBalancerAttributes.MainLoopMetadataUnchanged | AWSSDK_DotNet35/Amazon.ElasticLoadBalancing/Model/Internal/MarshallTransformations/DescribeLoadBalancerAttributesResponseUnmarshaller.cs:41-55 | when the loop tests no ResponseMetadata start element at depth 2, the metadata keeps its value |
| ElbDescribeLoadBalancerAttributes.MainLoopMetadataLast | AWSSDK_DotNet35/Amazon.ElasticLoadBalancing/Model/Internal/MarshallTransformations/DescribeLoadBalancerAttributesResponseUnmarshaller.cs:41-55 | the last ResponseMetadata start element at depth 2 the loop tests sets the metadata to its subtree |
| ElbDescribeLoadBalancerAttributes.MainLoopMetadata | AWSSDK_DotNet35/Amazon.ElasticLoadBalancing/Model/Internal/MarshallTransformations/DescribeLoadBalancerAttributesResponseUnmarshaller.cs:41-55 | the metadata comes from a ResponseMetadata start element at depth 2: the last one the loop tests wins, and with none it is unchanged |
| ElbDescribeLoadBalancerAttributes.MainLoopAttributesFrom | AWSSDK_DotNet35/Amazon.ElasticLoadBalancing/Model/Internal/MarshallTransformations/DescribeLoadBalancerAttributesResponseUnmarshaller.cs:41-55 | a changed attribute set is the subtree of a LoadBalancerAttributes element at depth 3 inside the run of depth-2-or-deeper tokens a result start element scans |
| ElbDescribeLoadBalancerAttributes.MainLoopAttributesUnchanged | AWSSDK_DotNet35/Amazon.ElasticLoadBalancing/Model/Internal/MarshallTransformations/DescribeLoadBalancerAttributesResponseUnmarshaller.cs:41-55 | when no result element the loop tests reaches a LoadBalancerAttributes element, the attributes keep their value |
| ElbDescribeLoadBalancerAttributes.MainLoopAttributesLast | AWSSDK_DotNet35/Amazon.ElasticLoadBalancing/Model/Internal/MarshallTransformations/DescribeLoadBalancerAttributesResponseUnmarshaller.cs:41-55 | the last LoadBalancerAttributes element at depth 3 that UnmarshallResult tests, across the result elements the loop tests, sets the attributes |
| ElbDescribeLoadBalancerAttributes.MainLoopAttributes | AWSSDK_DotNet35/Amazon.ElasticLoadBalancing/Model/Internal/MarshallTransformations/DescribeLoadBalancerAttributesResponseUnmarshaller.cs:41-55 | changed attributes lie in the run a result element scans; the last LoadBalancerAttributes element tested inside a tested result element wins, and with none they are unchanged |
| ElbDescribeLoadBalancerAttributes.ResultAttributesHit | AWSSDK_DotNet35/Amazon.ElasticLoadBalancing/Model/Internal/MarshallTransformations/DescribeLoadBalancerAttributesResponseUnmarshaller.cs:44-48 | a result element that changes the attributes took them from a LoadBalancerAttributes element in the run it scans |
| ElbDescribeLoadBalancerAttributes.ResultLoopTestedBeforeEnd | AWSSDK_DotNet35/Amazon.ElasticLoadBalancing/Model/Internal/MarshallTransformations/DescribeLoadBalancerAttributesResponseUnmarshaller.cs:70-82 | every position UnmarshallResult's loop tests lies before where it ends |
| ElbDescribeLoadBalancerAttributes.ResultLoopUnchanged | AWSSDK_DotNet35/Amazon.ElasticLoadBalancing/Model/Internal/MarshallTransformations/DescribeLoadBalancerAttributesResponseUnmarshaller.cs:70-82 | when UnmarshallResult's loop tests no LoadBalancerAttributes element at the target depth, the attributes keep their value |
| ElbDescribeLoadBalancerAttributes.ResultLoopLastHit | AWSSDK_DotNet35/Amazon.ElasticLoadBalancing/Model/Internal/MarshallTransformations/DescribeLoadBalancerAttributesResponseUnmarshaller.cs:70-82 | the last LoadBalancerAttributes element at the target depth UnmarshallResult's loop tests sets the attributes to its subtree |
| ElbDescribeLoadBalancerAttributes.ResultLoopLast | AWSSDK_DotNet35/Amazon.ElasticLoadBalancing/Model/Internal/MarshallTransformations/DescribeLoadBalancerAttributesResponseUnmarshaller.cs:70-82 | the loop ends after every position it tests; the last LoadBalancerAttributes element it tests wins, and with none the attributes are unchanged |
| ElbDescribeLoadBalancerAttributes.ResultLoopEnd | AWSSDK_DotNet35/Amazon.ElasticLoadBalancing/Model/Internal/MarshallTransformations/DescribeLoadBalancerAttributesResponseUnmarshaller.cs:70-82 | where UnmarshallResult's loop ends does not depend on the members decoded so far |
| ElbDescribeLoadBalancerAttributes.ResultLoopFrom | AWSSDK_DotNet35/Amazon.ElasticLoadBalancing/Model/Internal/MarshallTransformations/DescribeLoadBalancerAttributesResponseUnmarshaller.cs:70-82 | the loop ends at the first token above the original depth, never touches ResponseMetadata, and a changed attribute set is the subtree of a matching element |
| ElbDescribeLoadBalancerAttributes.ResultLoopDepth | AWSSDK_DotNet35/Amazon.ElasticLoadBalancing/Model/Internal/MarshallTransformations/DescribeLoadBalancerAttributesResponseUnmarshaller.cs:70-82 | every token UnmarshallResult's loop passes, skipped subtrees included, is at least as deep as its entry depth |
| ElbDescribeLoadBalancerAttributes.MainLoopSpec | AWSSDK_DotNet35/Amazon.ElasticLoadBalancing/Model/Internal/MarshallTransformations/DescribeLoadBalancerAttributesResponseUnmarshaller.cs:41-56 | the loop ends at the first token above depth d; ResponseMetadata is the subtree of the last ResponseMetadata start element at depth 2 the loop tests, and the attributes that of the last LoadBalancerAttributes element at depth 3 tested inside a tested DescribeLoadBalancerAttributesResult start element, each unchanged when there is none |
| ElbDescribeLoadBalancerAttributes.UnmarshallResultSpec | AWSSDK_DotNet35/Amazon.ElasticLoadBalancing/Model/Internal/MarshallTransformations/DescribeLoadBalancerAttributesResponseUnmarshaller.cs:64-82 | UnmarshallResult matches LoadBalancerAttributes at the entry depth + 1, or at depth 3 at the start of the document, stops when ReadAtDepth(originalDepth) fails, keeps ResponseMetadata, and takes the attributes from the last match it tests, unchanged when none |
| ElbDescribeLoadBalancerAttributes.ResultLoopSpec | AWSSDK_DotNet35/Amazon.ElasticLoadBalancing/Model/Internal/MarshallTransformations/DescribeLoadBalancerAttributesResponseUnmarshaller.cs:70-82 | the loop ends at the first token above the original depth, passes only tokens at the original depth or deeper, never touches ResponseMetadata, and the attributes are the subtree of the last LoadBalancerAttributes start element or attribute at the target depth it tests, unchanged when none |
| ElbDescribeLoadBalancerAttributes.DecodeFrom | AWSSDK_DotNet35/Amazon.ElasticLoadBalancing/Model/Internal/MarshallTransformations/DescribeLoadBalancerAttributesResponseUnmarshaller.cs:37-58 | one Read, then the loop at that token's depth; a present ResponseMetadata is the subtree of a matching element, and a present attribute set lies in the run a result element scans |
| ElbDescribeLoadBalancerAttributes.DecodeLastWins | AWSSDK_DotNet35/Amazon.ElasticLoadBalancing/Model/Internal/MarshallTransformations/DescribeLoadBalancerAttributesResponseUnmarshaller.cs:37-58 | each member is the subtree of the last matching element the loops test, and null when they test none |
| ElbDescribeLoadBalancerAttributes.DecodeSpec | AWSSDK_DotNet35/Amazon.ElasticLoadBalancing/Model/Internal/MarshallTransformations/DescribeLoadBalancerAttributesResponseUnmarshaller.cs:37-58 | one Read, then the loop at that token's depth; each member is the subtree of the last matching element the loops test, inside the run a result element scans for the attributes, and null when none is tested |
| ElbDescribeLoadBalancerAttributes.DescribeLoadBalancerAttributesResponse.constructor | AWSSDK_DotNet35/Amazon.ElasticLoadBalancing/Model/Internal/MarshallTransformations/DescribeLoadBalancerAttributesResponseUnmarshaller.cs:37 | a new response has no members set |
| ElbDescribeLoadBalancerAttributes.DescribeLoadBalancerAttributesResponseUnmarshaller.UnmarshallMember | AWSSDK_DotNet35/Amazon.ElasticLoadBalancing/Model/Internal/MarshallTransformations/DescribeLoadBalancerAttributesResponseUnmarshaller.cs:41-55 | one pass of the loop moves the cursor forward and leaves what MainLoop yields from the new position equal to what it yielded from the old one |
| ElbDescribeLoadBalancerAttributes.DescribeLoadBalancerAttributesResponseUnmarshaller.Unmarshall | AWSSDK_DotNet35/Amazon.ElasticLoadBalancing/Model/Internal/MarshallTransformations/DescribeLoadBalancerAttributesResponseUnmarshaller.cs:35-59 | the response and final cursor position are those Decode specifies |
| ElbDescribeLoadBalancerAttributes.DescribeLoadBalancerAttributesResponseUnmarshaller.UnmarshallResultInto | AWSSDK_DotNet35/Amazon.ElasticLoadBalancing/Model/Internal/MarshallTransformations/DescribeLoadBalancerAttributesResponseUnmarshaller.cs:61-85 | the caller's response and the cursor end as UnmarshallResult specifies |
| ElbDescribeLoadBalancerAttributes.UnmarshallException | AWSSDK_DotNet35/Amazon.ElasticLoadBalancing/Model/Internal/MarshallTransformations/DescribeLoadBalancerAttributesResponseUnmarshaller.cs:88-100 | the fault keeps the envelope and its kind is the table lookup of the code, with the generic fault as fallback |
| ElbDescribeLoadBalancerAttributes.FaultKindByCode | AWSSDK_DotNet35/Amazon.ElasticLoadBalancing/Model/Internal/MarshallTransformations/DescribeLoadBalancerAttributesResponseUnmarshaller.cs:91-99 | LoadBalancerNotFound gives AccessPointNotFoundException, LoadBalancerAttributeNotFound gives LoadBalancerAttributeNotFoundException, and any other or null code the generic fault |
| ElbDescribeLoadBalancerAttributes.DescribeLoadBalancerAttributesResponseUnmarshallerInstance.constructor | AWSSDK_DotNet35/Amazon.ElasticLoadBalancing/Model/Internal/MarshallTransformations/DescribeLoadBalancerAttributesResponseUnmarshaller.cs:102 | the instance is created once, eagerly |
| ElbDescribeLoadBalancerAttributes.AccessorsAgree | AWSSDK_DotNet35/Amazon.ElasticLoadBalancing/Model/Internal/MarshallTransformations/DescribeLoadBalancerAttributesResponseUnmarshaller.cs:104-114 | GetInstance() and Instance, called any number of times, return the same object |
| ElasticTranscoderListPipelines.LoopMembers | AWSSDK_DotNet35/Amazon.ElasticTranscoder/Model/Internal/MarshallTransformations/ListPipelinesResponseUnmarshaller.cs:43-57 | NextPageToken holds the text of the last matching token at the entry depth, Pipelines the subtree of the last matching one; nothing else changes them |
| ElasticTranscoderListPipelines.LoopNextPageToken | AWSSDK_DotNet35/Amazon.ElasticTranscoder/Model/Internal/MarshallTransformations/ListPipelinesResponseUnmarshaller.cs:43-50 | NextPageToken holds the text of the last matching token at the entry depth, or keeps its earlier value when none matches |
| ElasticTranscoderListPipelines.LoopPipelines | AWSSDK_DotNet35/Amazon.ElasticTranscoder/Model/Internal/MarshallTransformations/ListPipelinesResponseUnmarshaller.cs:43-56 | Pipelines holds the subtree of the last matching token at the entry depth, or keeps its earlier value when none matches |
| ElasticTranscoderListPipelines.PipelinesHitStep | AWSSDK_DotNet35/Amazon.ElasticTranscoder/Model/Internal/MarshallTransformations/ListPipelinesResponseUnmarshaller.cs:51-55 | at a Pipelines token the loop continues after its subtree holding that subtree, so the last such token's subtree wins |
| ElasticTranscoderListPipelines.PipelinesMissStep | AWSSDK_DotNet35/Amazon.ElasticTranscoder/Model/Internal/MarshallTransformations/ListPipelinesResponseUnmarshaller.cs:43-56 | at any other token the loop continues at the next token with Pipelines unchanged |
| ElasticTranscoderListPipelines.LoopExit | AWSSDK_DotNet35/Amazon.ElasticTranscoder/Model/Internal/MarshallTransformations/ListPipelinesResponseUnmarshaller.cs:43 | the loop ends at the first token that is not at least the entry depth, or at the end of input |
| ElasticTranscoderListPipelines.DecodeMembers | AWSSDK_DotNet35/Amazon.ElasticTranscoder/Model/Internal/MarshallTransformations/ListPipelinesResponseUnmarshaller.cs:39-60 | one Read, then the loop at that token's depth: NextPageToken and Pipelines are the last matches' text and subtree, or null when no token matched |
| ElasticTranscoderListPipelines.ListPipelinesResponseUnmarshaller.Unmarshall | AWSSDK_DotNet35/Amazon.ElasticTranscoder/Model/Internal/MarshallTransformations/ListPipelinesResponseUnmarshaller.cs:37-61 | the response and cursor position are those Decode specifies |
| ElasticTranscoderListPipelines.UnmarshallException | AWSSDK_DotNet35/Amazon.ElasticTranscoder/Model/Internal/MarshallTransformations/ListPipelinesResponseUnmarshaller.cs:63-83 | the fault keeps the envelope and its kind is the table lookup of the code, with the generic fault as fallback |
| ElasticTranscoderListPipelines.FaultKindByCode | AWSSDK_DotNet35/Amazon.ElasticTranscoder/Model/Internal/MarshallTransformations/ListPipelinesResponseUnmarshaller.cs:66-82 | each of the four codes gives its fault type by exact match; an unknown or null code gives AmazonElasticTranscoderException |
| ElasticTranscoderListPipelines.FaultKindOrderIndependent | AWSSDK_DotNet35/Amazon.ElasticTranscoder/Model/Internal/MarshallTransformations/ListPipelinesResponseUnmarshaller.cs:66-81 | any reordering of the four checks gives the same fault type |
| ElasticTranscoderListPipelines.ListPipelinesResponseUnmarshallerInstance.constructor | AWSSDK_DotNet35/Amazon.ElasticTranscoder/Model/Internal/MarshallTransformations/ListPipelinesResponseUnmarshaller.cs:85 | the instance is created once, eagerly |
| ElasticTranscoderListPipelines.AccessorsAgree | AWSSDK_DotNet35/Amazon.ElasticTranscoder/Model/Internal/MarshallTransformations/ListPipelinesResponseUnmarshaller.cs:87-97 | GetInstance() and Instance return the same object |
| SwfCancelFailedUnmarshaller.Decode | AWSSDK_DotNet35/Amazon.SimpleWorkflow/Model/Internal/MarshallTransformations/CancelWorkflowExecutionFailedEventAttributesUnmarshaller.cs:36-37 | a JSON Null at the current token gives null without moving the cursor, and only then is the result null |
| SwfCancelFailedUnmarshaller.LoopCause | AWSSDK_DotNet35/Amazon.SimpleWorkflow/Model/Internal/MarshallTransformations/CancelWorkflowExecutionFailedEventAttributesUnmarshaller.cs:48-53 | `cause` is the text of the token after the last `cause` name at the entry depth + 1 that the loop tests, and unchanged when it tests none |
| SwfCancelFailedUnmarshaller.LoopEventId | AWSSDK_DotNet35/Amazon.SimpleWorkflow/Model/Internal/MarshallTransformations/CancelWorkflowExecutionFailedEventAttributesUnmarshaller.cs:55-60 | `decisionTaskCompletedEventId` is the number decoded after the last such name at the entry depth + 1 that the loop tests, and unchanged when it tests none |
| SwfCancelFailedUnmarshaller.LoopExit | AWSSDK_DotNet35/Amazon.SimpleWorkflow/Model/Internal/MarshallTransformations/CancelWorkflowExecutionFailedEventAttributesUnmarshaller.cs:45-69 | the loop stops at the first unmatched token at or above the entry depth, or at the end of input |
| SwfCancelFailedUnmarshaller.DecodeFields | AWSSDK_DotNet35/Amazon.SimpleWorkflow/Model/Internal/MarshallTransformations/CancelWorkflowExecutionFailedEventAttributesUnmarshaller.cs:39-69 | decoding stops at the first token at or above the entry depth, or at the end of input; each member is read from the value after the last name of it at entry depth + 1 the loop tests, and one never met stays null |
| SwfCancelFailedUnmarshaller.CancelWorkflowExecutionFailedEventAttributesUnmarshaller.UnmarshallXml | AWSSDK_DotNet35/Amazon.SimpleWorkflow/Model/Internal/MarshallTransformations/CancelWorkflowExecutionFailedEventAttributesUnmarshaller.cs:29-32 | always NotImplementedException |
| SwfCancelFailedUnmarshaller.CancelWorkflowExecutionFailedEventAttributesUnmarshaller.Unmarshall | AWSSDK_DotNet35/Amazon.SimpleWorkflow/Model/Internal/MarshallTransformations/CancelWorkflowExecutionFailedEventAttributesUnmarshaller.cs:34-70 | the result and cursor position are those Decode specifies |
| SwfCancelFailedUnmarshaller.CancelWorkflowExecutionFailedEventAttributesUnmarshallerInstance.GetInstance | AWSSDK_DotNet35/Amazon.SimpleWorkflow/Model/Internal/MarshallTransformations/CancelWorkflowExecutionFailedEventAttributesUnmarshaller.cs:72-78 | returns the stored instance, creating it only when none exists |
| SwfCancelFailedUnmarshaller.GetInstanceIsIdempotent | AWSSDK_DotNet35/Amazon.SimpleWorkflow/Model/Internal/MarshallTransformations/CancelWorkflowExecutionFailedEventAttributesUnmarshaller.cs:72-78 | two calls return the same object |
| StorageGatewayDeviceUnmarshaller.Decode | AWSSDK_DotNet35/Amazon.StorageGateway/Model/Internal/MarshallTransformations/DeviceiSCSIAttributesUnmarshaller.cs:36-37 | one token is read first; a JSON Null there gives null and leaves the cursor on it, and only then is the result null |
| StorageGatewayDeviceUnmarshaller.LoopTargetARN | AWSSDK_DotNet35/Amazon.StorageGateway/Model/Internal/MarshallTransformations/DeviceiSCSIAttributesUnmarshaller.cs:45-49 | TargetARN is the text of the last TargetARN token at the post-read depth; none leaves it unset |
| StorageGatewayDeviceUnmarshaller.LoopNetworkInterfaceId | AWSSDK_DotNet35/Amazon.StorageGateway/Model/Internal/MarshallTransformations/DeviceiSCSIAttributesUnmarshaller.cs:51-55 | NetworkInterfaceId is the text of the last NetworkInterfaceId token at the target depth; none leaves it unset |
| StorageGatewayDeviceUnmarshaller.LoopNetworkInterfacePort | AWSSDK_DotNet35/Amazon.StorageGateway/Model/Internal/MarshallTransformations/DeviceiSCSIAttributesUnmarshaller.cs:57-61 | NetworkInterfacePort is the number of the last NetworkInterfacePort token at the target depth, and every such token's number decoded |
| StorageGatewayDeviceUnmarshaller.LoopChapEnabled | AWSSDK_DotNet35/Amazon.StorageGateway/Model/Internal/MarshallTransformations/DeviceiSCSIAttributesUnmarshaller.cs:63-67 | ChapEnabled is the flag of the last ChapEnabled token at the target depth, and every such token's flag decoded |
| StorageGatewayDeviceUnmarshaller.LoopExit | AWSSDK_DotNet35/Amazon.StorageGateway/Model/Internal/MarshallTransformations/DeviceiSCSIAttributesUnmarshaller.cs:42 | the loop ends when ReadAtDepth(targetDepth) fails |
| StorageGatewayDeviceUnmarshaller.DecodeExit | AWSSDK_DotNet35/Amazon.StorageGateway/Model/Internal/MarshallTransformations/DeviceiSCSIAttributesUnmarshaller.cs:38-42 | a non-null result ends at the first token above the depth of the token read first, and everything it read is at least that deep |
| StorageGatewayDeviceUnmarshaller.DecodeStrings | AWSSDK_DotNet35/Amazon.StorageGateway/Model/Internal/MarshallTransformations/DeviceiSCSIAttributesUnmarshaller.cs:38-55 | in a non-null result, TargetARN and NetworkInterfaceId are the text of the last token carrying their name, or unset when none does |
| StorageGatewayDeviceUnmarshaller.DecodePresence | AWSSDK_DotNet35/Amazon.StorageGateway/Model/Internal/MarshallTransformations/DeviceiSCSIAttributesUnmarshaller.cs:38-67 | in a non-null result, NetworkInterfacePort and ChapEnabled are present iff some token carries their name |
| StorageGatewayDeviceUnmarshaller.DecodeFields | AWSSDK_DotNet35/Amazon.StorageGateway/Model/Internal/MarshallTransformations/DeviceiSCSIAttributesUnmarshaller.cs:38-71 | the loop runs at the depth of the token read first and ends at the first token above it; TargetARN and NetworkInterfaceId are the last matches' texts, the port and flag the last matches' decoded number and flag, every match decoded, and each field is null when no token names it |
| StorageGatewayDeviceUnmarshaller.DecodeNumbers | AWSSDK_DotNet35/Amazon.StorageGateway/Model/Internal/MarshallTransformations/DeviceiSCSIAttributesUnmarshaller.cs:38-71 | in a non-null result, NetworkInterfacePort and ChapEnabled hold the number and flag decoded from the last token carrying their name, every such token decoded, and null when none does |
| StorageGatewayDeviceUnmarshaller.DeviceiSCSIAttributesUnmarshaller.UnmarshallXml | AWSSDK_DotNet35/Amazon.StorageGateway/Model/Internal/MarshallTransformations/DeviceiSCSIAttributesUnmarshaller.cs:29-32 | always NotImplementedException |
| StorageGatewayDeviceUnmarshaller.DeviceiSCSIAttributesUnmarshaller.Unmarshall | AWSSDK_DotNet35/Amazon.StorageGateway/Model/Internal/MarshallTransformations/DeviceiSCSIAttributesUnmarshaller.cs:34-72 | the result and cursor position are those Decode specifies |
| StorageGatewayDeviceUnmarshaller.DeviceiSCSIAttributesUnmarshallerInstance.GetInstance | AWSSDK_DotNet35/Amazon.StorageGateway/Model/Internal/MarshallTransformations/DeviceiSCSIAttributesUnmarshaller.cs:74-80 | returns the stored instance, creating it only when none exists |
| StorageGatewayDeviceUnmarshaller.GetInstanceIsIdempotent | AWSSDK_DotNet35/Amazon.StorageGateway/Model/Internal/MarshallTransformations/DeviceiSCSIAttributesUnmarshaller.cs:74-80 | two calls return the same object |
| Ec2IamInstanceProfileUnmarshaller.DecodeFields | AWSSDK_DotNet35/Amazon.EC2/Model/Internal/MarshallTransformations/IamInstanceProfileSpecificationUnmarshaller.cs:30-34 | the target depth is the entry depth + 1, plus one more at the start of the document |
| Ec2IamInstanceProfileUnmarshaller.LoopArn | AWSSDK_DotNet35/Amazon.EC2/Model/Internal/MarshallTransformations/IamInstanceProfileSpecificationUnmarshaller.cs:38-45 | `arn` is the text of the last start element or attribute named arn at the target depth; none leaves it as it was |
| Ec2IamInstanceProfileUnmarshaller.LoopName | AWSSDK_DotNet35/Amazon.EC2/Model/Internal/MarshallTransformations/IamInstanceProfileSpecificationUnmarshaller.cs:46-51 | `name` likewise |
| Ec2IamInstanceProfileUnmarshaller.LoopExit | AWSSDK_DotNet35/Amazon.EC2/Model/Internal/MarshallTransformations/IamInstanceProfileSpecificationUnmarshaller.cs:53-56 | the loop returns on an end element strictly above the entry depth, or at the end of input with the object built so far |
| Ec2IamInstanceProfileUnmarshaller.IamInstanceProfileSpecificationUnmarshaller.Unmarshall | AWSSDK_DotNet35/Amazon.EC2/Model/Internal/MarshallTransformations/IamInstanceProfileSpecificationUnmarshaller.cs:27-62 | the result and cursor position are those Decode specifies |
| Ec2IamInstanceProfileUnmarshaller.IamInstanceProfileSpecificationUnmarshaller.UnmarshallJson | AWSSDK_DotNet35/Amazon.EC2/Model/Internal/MarshallTransformations/IamInstanceProfileSpecificationUnmarshaller.cs:64-67 | always null |
| Ec2IamInstanceProfileUnmarshaller.IamInstanceProfileSpecificationUnmarshallerInstance.GetInstance | AWSSDK_DotNet35/Amazon.EC2/Model/Internal/MarshallTransformations/IamInstanceProfileSpecificationUnmarshaller.cs:69-77 | returns the stored instance, creating it only when none exists |
| Ec2IamInstanceProfileUnmarshaller.GetInstanceIsIdempotent | AWSSDK_DotNet35/Amazon.EC2/Model/Internal/MarshallTransformations/IamInstanceProfileSpecificationUnmarshaller.cs:69-77 | two calls return the same object |
| QueryProtocol.ValueOf | AWSSDK_DotNet35/Amazon.EC2/Model/Internal/MarshallTransformations/AssignPrivateIpAddressesRequestMarshaller.cs:36-60 | a name is found iff a parameter has it, and with distinct names the value found is that parameter's |
| QueryProtocol.FromInt | AWSSDK_DotNet35/Amazon.EC2/Model/Internal/MarshallTransformations/AssignPrivateIpAddressesRequestMarshaller.cs:55 | the decimal text parses back to the integer |
| QueryProtocol.FromBool | AWSSDK_DotNet35/Amazon.EC2/Model/Internal/MarshallTransformations/AssignPrivateIpAddressesRequestMarshaller.cs:59 | the text is `true` or `false`, and `true` exactly for true |
| QueryProtocol.FieldsSpec | AWSSDK_DotNet35/Amazon.Redshift/Model/Internal/MarshallTransformations/CreateClusterParameterGroupRequestMarshaller.cs:42-53 | a run of optional fields with distinct names gives distinct parameters, one per set field, each field's value under its name, and no other names |
| QueryProtocol.IndexedSpec | AWSSDK_DotNet35/Amazon.EC2/Model/Internal/MarshallTransformations/AssignPrivateIpAddressesRequestMarshaller.cs:46-51 | list elements become `prefix.1` ... `prefix.n` in order, with distinct names, no gaps, and nothing under any other index |
| QueryProtocol.IndexedNameInjective | AWSSDK_DotNet35/Amazon.EC2/Model/Internal/MarshallTransformations/AssignPrivateIpAddressesRequestMarshaller.cs:49 | different indices give different names |
| QueryProtocol.WireRequest.constructor | AWSSDK_DotNet35/Amazon.EC2/Model/Internal/MarshallTransformations/AssignPrivateIpAddressesRequestMarshaller.cs:35 | a new request names its service and has no parameters, headers, path or content |
| QueryProtocol.WireRequest.AddParameter | AWSSDK_DotNet35/Amazon.EC2/Model/Internal/MarshallTransformations/AssignPrivateIpAddressesRequestMarshaller.cs:36 | appends one parameter and changes nothing else; the name must be new, as Dictionary.Add requires |
| QueryProtocol.WireRequest.SetHeader | AWSSDK_DotNet35/Amazon.StorageGateway/Model/Internal/MarshallTransformations/CreateSnapshotRequestMarshaller.cs:42-45 | adds or overwrites one header and changes nothing else |
| QueryProtocol.WireRequest.SetResourcePath | AWSSDK_DotNet35/Amazon.StorageGateway/Model/Internal/MarshallTransformations/CreateSnapshotRequestMarshaller.cs:48 | sets the resource path and changes nothing else |
| QueryProtocol.WireRequest.SetContent | AWSSDK_DotNet35/Amazon.StorageGateway/Model/Internal/MarshallTransformations/CreateSnapshotRequestMarshaller.cs:70 | sets the content and changes nothing else |
| QueryProtocol.ObjectMembersRoundTrip | AWSSDK_DotNet35/Amazon.StorageGateway/Model/Internal/MarshallTransformations/CreateSnapshotRequestMarshaller.cs:54-67 | reading the members back from the calls that wrote an object gives the members written |
| QueryProtocol.EmptyObjectText | AWSSDK_DotNet35/Amazon.StorageGateway/Model/Internal/MarshallTransformations/CreateSnapshotRequestMarshaller.cs:53-67 | an object with no members is written as `{}` |
| QueryProtocol.JsonWriter.WritePropertyName | AWSSDK_DotNet35/Amazon.StorageGateway/Model/Internal/MarshallTransformations/CreateSnapshotRequestMarshaller.cs:58 | records one property-name call |
| QueryProtocol.JsonWriter.Write | AWSSDK_DotNet35/Amazon.StorageGateway/Model/Internal/MarshallTransformations/CreateSnapshotRequestMarshaller.cs:59 | records one string-value call |
| Ec2AssignPrivateIpAddressesMarshaller.RoutingFirst | AWSSDK_DotNet35/Amazon.EC2/Model/Internal/MarshallTransformations/AssignPrivateIpAddressesRequestMarshaller.cs:36-47 | Action and Version come first; a null request gives exactly those two; marshalling fails exactly when a non-null request has a null address list |
| Ec2AssignPrivateIpAddressesMarshaller.FieldsEmittedIffSet | AWSSDK_DotNet35/Amazon.EC2/Model/Internal/MarshallTransformations/AssignPrivateIpAddressesRequestMarshaller.cs:38-60 | with a non-null address list: Action and Version have their fixed values, and NetworkInterfaceId, SecondaryPrivateIpAddressCount and AllowReassignment are each sent iff set, with their formatted values |
| Ec2AssignPrivateIpAddressesMarshaller.ElementsIndexed | AWSSDK_DotNet35/Amazon.EC2/Model/Internal/MarshallTransformations/AssignPrivateIpAddressesRequestMarshaller.cs:42-52 | `PrivateIpAddress.k` holds the k-th address for 1 <= k <= length, and no other index is sent |
| Ec2AssignPrivateIpAddressesMarshaller.ParameterCount | AWSSDK_DotNet35/Amazon.EC2/Model/Internal/MarshallTransformations/AssignPrivateIpAddressesRequestMarshaller.cs:36-60 | names are distinct; the count is two, plus the list length, plus one per set scalar |
| Ec2AssignPrivateIpAddressesMarshaller.HeadNames | AWSSDK_DotNet35/Amazon.EC2/Model/Internal/MarshallTransformations/AssignPrivateIpAddressesRequestMarshaller.cs:36-41 | the parameters before the list are Action, Version and at most NetworkInterfaceId, none twice |
| Ec2AssignPrivateIpAddressesMarshaller.TailNames | AWSSDK_DotNet35/Amazon.EC2/Model/Internal/MarshallTransformations/AssignPrivateIpAddressesRequestMarshaller.cs:53-60 | the parameters after the list are at most SecondaryPrivateIpAddressCount and AllowReassignment, none twice |
| Ec2AssignPrivateIpAddressesMarshaller.NamesDistinct | AWSSDK_DotNet35/Amazon.EC2/Model/Internal/MarshallTransformations/AssignPrivateIpAddressesRequestMarshaller.cs:36-60 | no name is added twice, so every Dictionary.Add succeeds |
| Ec2AssignPrivateIpAddressesMarshaller.AssignPrivateIpAddressesRequestMarshaller.Marshall | AWSSDK_DotNet35/Amazon.EC2/Model/Internal/MarshallTransformations/AssignPrivateIpAddressesRequestMarshaller.cs:33-63 | succeeds iff Parameters does; the request has service AmazonEC2 and exactly those parameters, in order |
| StorageGatewayCreateSnapshotMarshaller.WriteBody | AWSSDK_DotNet35/Amazon.StorageGateway/Model/Internal/MarshallTransformations/CreateSnapshotRequestMarshaller.cs:51-69 | the text written is the rendering of the object start, each set member name and value in order, and the object end |
| StorageGatewayCreateSnapshotMarshaller.BodyMembers | AWSSDK_DotNet35/Amazon.StorageGateway/Model/Internal/MarshallTransformations/CreateSnapshotRequestMarshaller.cs:54-67 | the body is one object holding VolumeARN iff set and SnapshotDescription iff set, with their values, VolumeARN first, and nothing else |
| StorageGatewayCreateSnapshotMarshaller.EmptyBody | AWSSDK_DotNet35/Amazon.StorageGateway/Model/Internal/MarshallTransformations/CreateSnapshotRequestMarshaller.cs:54-67 | a null request, or one with neither member set, gets the body `{}` |
| StorageGatewayCreateSnapshotMarshaller.WrittenEvents | AWSSDK_DotNet35/Amazon.StorageGateway/Model/Internal/MarshallTransformations/CreateSnapshotRequestMarshaller.cs:54-67 | the specified body is the calls the two guarded writes make between start and end |
| StorageGatewayCreateSnapshotMarshaller.CreateSnapshotRequestMarshaller.Marshall | AWSSDK_DotNet35/Amazon.StorageGateway/Model/Internal/MarshallTransformations/CreateSnapshotRequestMarshaller.cs:38-75 | service AmazonStorageGateway; headers exactly X-Amz-Target = StorageGateway_20130630.CreateSnapshot and Content-Type = application/x-amz-json-1.1; resource path ""; content the rendered body; no query parameters |
| ElastiCacheRebootCacheClusterMarshaller.ParametersShape | AWSSDK_DotNet35/Amazon.ElastiCache/Model/Internal/MarshallTransformations/RebootCacheClusterRequestMarshaller.cs:37-55 | the parameters are the routing pair, then CacheClusterId when it is sent, then the node list's elements |
| ElastiCacheRebootCacheClusterMarshaller.RoutingFirst | AWSSDK_DotNet35/Amazon.ElastiCache/Model/Internal/MarshallTransformations/RebootCacheClusterRequestMarshaller.cs:37-40 | Action and Version come first; a null request gives only those |
| ElastiCacheRebootCacheClusterMarshaller.FieldsEmittedIffSet | AWSSDK_DotNet35/Amazon.ElastiCache/Model/Internal/MarshallTransformations/RebootCacheClusterRequestMarshaller.cs:42-45 | CacheClusterId is sent iff the request is non-null and it is set |
| ElastiCacheRebootCacheClusterMarshaller.ElementsIndexed | AWSSDK_DotNet35/Amazon.ElastiCache/Model/Internal/MarshallTransformations/RebootCacheClusterRequestMarshaller.cs:46-54 | `CacheNodeIdsToReboot.member.k` holds the k-th id when the list is set, and nothing is sent under any other index |
| ElastiCacheRebootCacheClusterMarshaller.ParameterCount | AWSSDK_DotNet35/Amazon.ElastiCache/Model/Internal/MarshallTransformations/RebootCacheClusterRequestMarshaller.cs:37-55 | names are distinct; the count is 2 + [id set] + (list length if set) |
| ElastiCacheRebootCacheClusterMarshaller.AddNodeIds | AWSSDK_DotNet35/Amazon.ElastiCache/Model/Internal/MarshallTransformations/RebootCacheClusterRequestMarshaller.cs:48-53 | appends the list's elements in order under `CacheNodeIdsToReboot.member.1`, `.2`, ... and changes nothing else |
| ElastiCacheRebootCacheClusterMarshaller.RebootCacheClusterRequestMarshaller.Marshall | AWSSDK_DotNet35/Amazon.ElastiCache/Model/Internal/MarshallTransformations/RebootCacheClusterRequestMarshaller.cs:34-57 | service Amazon.ElastiCache and exactly the specified parameters, in order |
| RedshiftCreateClusterParameterGroupMarshaller.RoutingFirst | AWSSDK_DotNet35/Amazon.Redshift/Model/Internal/MarshallTransformations/CreateClusterParameterGroupRequestMarshaller.cs:37-40 | Action and Version come first; a null request gives exactly those two |
| RedshiftCreateClusterParameterGroupMarshaller.FieldsEmittedIffSet | AWSSDK_DotNet35/Amazon.Redshift/Model/Internal/MarshallTransformations/CreateClusterParameterGroupRequestMarshaller.cs:40-53 | Description, ParameterGroupFamily and ParameterGroupName are each sent iff the request is non-null and the member is set, with its value |
| RedshiftCreateClusterParameterGroupMarshaller.OnlyKnownNames | AWSSDK_DotNet35/Amazon.Redshift/Model/Internal/MarshallTransformations/CreateClusterParameterGroupRequestMarshaller.cs:36-55 | no other names are produced, none repeats, and the count is two plus the number of set members |
| RedshiftCreateClusterParameterGroupMarshaller.CreateClusterParameterGroupRequestMarshaller.Marshall | AWSSDK_DotNet35/Amazon.Redshift/Model/Internal/MarshallTransformations/CreateClusterParameterGroupRequestMarshaller.cs:34-56 | service Amazon.Redshift and exactly the specified parameters, in order |
| SecurityTokenDecodeAuthorizationMessageMarshaller.ParametersShape | AWSSDK_DotNet35/Amazon.SecurityToken/Model/Internal/MarshallTransformations/DecodeAuthorizationMessageRequestMarshaller.cs:37-45 | the parameters are the routing pair followed by EncodedMessage only when the request is non-null and the member is set |
| SecurityTokenDecodeAuthorizationMessageMarshaller.RoutingFirst | AWSSDK_DotNet35/Amazon.SecurityToken/Model/Internal/MarshallTransformations/DecodeAuthorizationMessageRequestMarshaller.cs:37-38 | Action and Version come first, and at most one more parameter follows, exactly when the message is set |
| SecurityTokenDecodeAuthorizationMessageMarshaller.MemberValues | AWSSDK_DotNet35/Amazon.SecurityToken/Model/Internal/MarshallTransformations/DecodeAuthorizationMessageRequestMarshaller.cs:37-45 | looking up Action, Version and EncodedMessage gives the routing values and the request's message (null when the request is null) |
| SecurityTokenDecodeAuthorizationMessageMarshaller.OnlyKnownNames | AWSSDK_DotNet35/Amazon.SecurityToken/Model/Internal/MarshallTransformations/DecodeAuthorizationMessageRequestMarshaller.cs:37-45 | no name other than Action, Version and EncodedMessage is sent, and none is sent twice |
| SecurityTokenDecodeAuthorizationMessageMarshaller.FieldsEmittedIffSet | AWSSDK_DotNet35/Amazon.SecurityToken/Model/Internal/MarshallTransformations/DecodeAuthorizationMessageRequestMarshaller.cs:37-45 | Action and Version first; EncodedMessage sent iff the request is non-null and it is set; no other names; the count is 2 or 3, and 3 exactly when the message is sent |
| SecurityTokenDecodeAuthorizationMessageMarshaller.DecodeAuthorizationMessageRequestMarshaller.Marshall | AWSSDK_DotNet35/Amazon.SecurityToken/Model/Internal/MarshallTransformations/DecodeAuthorizationMessageRequestMarshaller.cs:34-48 | service Amazon.SecurityToken and exactly the specified parameters, in order |
| CloudSearchBuildSuggestersMarshaller.ParametersShape | AWSSDK_DotNet35/Amazon.CloudSearch/Model/Internal/MarshallTransformations/BuildSuggestersRequestMarshaller.cs:36-41 | the parameters are the routing pair followed by DomainName only when the request is non-null and the member is set |
| CloudSearchBuildSuggestersMarshaller.RoutingFirst | AWSSDK_DotNet35/Amazon.CloudSearch/Model/Internal/MarshallTransformations/BuildSuggestersRequestMarshaller.cs:36-37 | Action and Version come first, and at most one more parameter follows, exactly when DomainName is set |
| CloudSearchBuildSuggestersMarshaller.MemberValues | AWSSDK_DotNet35/Amazon.CloudSearch/Model/Internal/MarshallTransformations/BuildSuggestersRequestMarshaller.cs:36-41 | looking up Action, Version and DomainName gives the routing values and the request's domain name (null when the request is null) |
| CloudSearchBuildSuggestersMarshaller.OnlyKnownNames | AWSSDK_DotNet35/Amazon.CloudSearch/Model/Internal/MarshallTransformations/BuildSuggestersRequestMarshaller.cs:36-41 | no name other than Action, Version and DomainName is sent, and none is sent twice |
| CloudSearchBuildSuggestersMarshaller.FieldsEmittedIffSet | AWSSDK_DotNet35/Amazon.CloudSearch/Model/Internal/MarshallTransformations/BuildSuggestersRequestMarshaller.cs:36-41 | Action and Version first; DomainName sent iff the request is non-null and it is set; no other names; a null request gives two parameters |
| CloudSearchBuildSuggestersMarshaller.BuildSuggestersRequestMarshaller.Marshall | AWSSDK_DotNet35/Amazon.CloudSearch/Model/Internal/MarshallTransformations/BuildSuggestersRequestMarshaller.cs:33-44 | service AmazonCloudSearch and exactly the specified parameters, in order |
| Decimal.ParseFromInt | AWSSDK_DotNet35/Amazon.EC2/Model/Internal/MarshallTransformations/AssignPrivateIpAddressesRequestMarshaller.cs:55 | the decimal text of any integer parses back to that integer |
| Decimal.ParseIgnoresSurroundingWhite | AWSSDK_DotNet35/Amazon.DynamoDBv2/DataModel/ContextInternal.cs:63-70 | white space before and after the number does not change what the integral conversions read |
| Decimal.ParsePlusSign | AWSSDK_DotNet35/Amazon.DynamoDBv2/DataModel/ContextInternal.cs:63-70 | a leading + is accepted: +n reads as n |
| Decimal.ParseMinusSign | AWSSDK_DotNet35/Amazon.DynamoDBv2/DataModel/ContextInternal.cs:63-70 | a leading - followed by the digits of n reads as -n |
| Decimal.ParseDigits | AWSSDK_DotNet35/Amazon.DynamoDBv2/DataModel/ContextInternal.cs:63-70 | the digits of n read as n |
| Decimal.FromNatInjective | AWSSDK_DotNet35/Amazon.EC2/Model/Internal/MarshallTransformations/AssignPrivateIpAddressesRequestMarshaller.cs:55 | different numbers get different decimal texts |
| Presence.BoolFieldObservable | AWSSDK_DotNet35/Amazon.EC2/Model/VpnConnectionOptions.cs:38-45 | for any two backing fields, the getter and IsSet together tell them apart exactly, and when the getter reads alike for different fields IsSet differs |
| Presence.SetCollectionsHoldAnElement | AWSSDK_DotNet35/Amazon.SimpleNotificationService/Model/AddPermissionRequest.cs:56-59 | for any list or dictionary field, it is set iff it is non-null and holds an element or key |
| Presence.BoolOrDefault | AWSSDK_DotNet35/Amazon.CognitoIdentity/Model/CreateIdentityPoolRequest.cs:46 | the stored bool when there is one, false otherwise |
| SnsAddPermissionRequest.AddPermissionRequest.constructor | AWSSDK_DotNet35/Amazon.SimpleNotificationService/Model/AddPermissionRequest.cs:33-36 | both lists start empty and both strings null, so nothing is set |
| SnsAddPermissionRequest.AddPermissionRequest.SetActionName | AWSSDK_DotNet35/Amazon.SimpleNotificationService/Model/AddPermissionRequest.cs:49-59 | the getter returns the list assigned; set iff it is non-null and non-empty; no other field changes |
| SnsAddPermissionRequest.AddPermissionRequest.SetAWSAccountId | AWSSDK_DotNet35/Amazon.SimpleNotificationService/Model/AddPermissionRequest.cs:70-80 | likewise for AWSAccountId |
| SnsAddPermissionRequest.AddPermissionRequest.SetLabel | AWSSDK_DotNet35/Amazon.SimpleNotificationService/Model/AddPermissionRequest.cs:89-99 | the getter returns the string assigned; set iff non-null; no other field changes |
| SnsAddPermissionRequest.AddPermissionRequest.SetTopicArn | AWSSDK_DotNet35/Amazon.SimpleNotificationService/Model/AddPermissionRequest.cs:108-118 | likewise for TopicArn |
| SnsAddPermissionRequest.AssignActionName | AWSSDK_DotNet35/Amazon.SimpleNotificationService/Model/AddPermissionRequest.cs:33-59 | on a new request the list reads back as assigned, is set iff non-null and non-empty (an empty list stays unset), and the other members stay unset |
| SnsAddPermissionRequest.AssignAWSAccountId | AWSSDK_DotNet35/Amazon.SimpleNotificationService/Model/AddPermissionRequest.cs:70-80 | likewise for AWSAccountId |
| SnsAddPermissionRequest.AssignStrings | AWSSDK_DotNet35/Amazon.SimpleNotificationService/Model/AddPermissionRequest.cs:89-118 | Label and TopicArn read back as assigned, each set iff non-null; assigning one leaves the other alone, and the lists stay unset |
| CognitoCreateIdentityPoolRequest.CreateIdentityPoolRequest.constructor | AWSSDK_DotNet35/Amazon.CognitoIdentity/Model/CreateIdentityPoolRequest.cs:33-35 | the bool and the name start unset, the providers an empty (unset) dictionary, and the bool reads false |
| CognitoCreateIdentityPoolRequest.CreateIdentityPoolRequest.SetAllowUnauthenticatedIdentities | AWSSDK_DotNet35/Amazon.CognitoIdentity/Model/CreateIdentityPoolRequest.cs:44-54 | afterwards the bool reads the value assigned and is set, whatever the value; nothing else changes |
| CognitoCreateIdentityPoolRequest.CreateIdentityPoolRequest.SetIdentityPoolName | AWSSDK_DotNet35/Amazon.CognitoIdentity/Model/CreateIdentityPoolRequest.cs:63-73 | the name reads back as assigned and is set iff non-null |
| CognitoCreateIdentityPoolRequest.CreateIdentityPoolRequest.SetSupportedLoginProviders | AWSSDK_DotNet35/Amazon.CognitoIdentity/Model/CreateIdentityPoolRequest.cs:82-92 | the providers read back as assigned and are set iff non-null and non-empty |
| CognitoCreateIdentityPoolRequest.AssignAllowUnauthenticatedIdentities | AWSSDK_DotNet35/Amazon.CognitoIdentity/Model/CreateIdentityPoolRequest.cs:44-54 | a new request reads false and unset; after assigning any bool, false included, it reads that bool and is set |
| CognitoCreateIdentityPoolRequest.AssignNameAndProviders | AWSSDK_DotNet35/Amazon.CognitoIdentity/Model/CreateIdentityPoolRequest.cs:63-92 | name and providers read back as assigned; the name is set iff non-null and the providers iff non-null and non-empty |
| RedshiftDeleteClusterParameterGroupRequest.DeleteClusterParameterGroupRequest.constructor | AWSSDK_DotNet35/Amazon.Redshift/Model/DeleteClusterParameterGroupRequest.cs:33 | the name starts unset |
| RedshiftDeleteClusterParameterGroupRequest.DeleteClusterParameterGroupRequest.SetParameterGroupName | AWSSDK_DotNet35/Amazon.Redshift/Model/DeleteClusterParameterGroupRequest.cs:48-58 | the getter returns the value assigned, set iff it is non-null |
| RedshiftDeleteClusterParameterGroupRequest.AssignTwice | AWSSDK_DotNet35/Amazon.Redshift/Model/DeleteClusterParameterGroupRequest.cs:48-58 | each assignment reads back as made and is set iff non-null |
| RedshiftDeleteClusterParameterGroupRequest.EmptyNameIsSetAndNullUnsets | AWSSDK_DotNet35/Amazon.Redshift/Model/DeleteClusterParameterGroupRequest.cs:48-58 | the empty string counts as set, and assigning null afterwards unsets it |
| CloudSearchIndexDocumentsResult.IndexDocumentsResult.constructor | AWSSDK_DotNet35/Amazon.CloudSearch/Model/IndexDocumentsResult.cs:31 | the list starts empty, so it is unset |
| CloudSearchIndexDocumentsResult.IndexDocumentsResult.SetFieldNames | AWSSDK_DotNet35/Amazon.CloudSearch/Model/IndexDocumentsResult.cs:38-48 | the getter returns the list assigned; a non-null list is set iff it has an element |
| CloudSearchIndexDocumentsResult.AssignFieldNames | AWSSDK_DotNet35/Amazon.CloudSearch/Model/IndexDocumentsResult.cs:31-48 | a new result is unset; a non-null list reads back and is set iff non-empty, so an empty list leaves it unset |
| Ec2VpnConnectionOptions.VpnConnectionOptions.constructor | AWSSDK_DotNet35/Amazon.EC2/Model/VpnConnectionOptions.cs:29-46 | the member starts unset and reads false |
| Ec2VpnConnectionOptions.VpnConnectionOptions.SetStaticRoutesOnly | AWSSDK_DotNet35/Amazon.EC2/Model/VpnConnectionOptions.cs:36-46 | afterwards the member reads the value assigned and is set |
| Ec2VpnConnectionOptions.AssignStaticRoutesOnly | AWSSDK_DotNet35/Amazon.EC2/Model/VpnConnectionOptions.cs:36-46 | new options read false and unset; assigning a bool reads it back and is set, so assigning false differs from never assigning only in IsSet |

## Left out

- The WinRT ElastiCache client is not part of this model. It is asynchronous network plumbing around a request pipeline that is not part of this model.
- `GetTable`, `GetTargetTable*`, `FromSearch`, `FromSearchAsync`, `ConvertScan`, `ConvertFromScan`, `ConvertFromQuery` and `ConvertQueryHelper` call the network through `Table` and `Search` objects; they are left out.
- `ComposeScanFilter` is left out; it repeats the per-condition conversion `AddConditions` models, without the key handling.
- `PopulateInstance`, `DocumentToObject`, `FromDynamoDBEntry`, `TryFromPrimitive` and `TryFromPrimitiveList` (document back to object) are left out: they work by reflection on the target type. Property reads are a map from property name to value instead, and writes back into an object are not modelled.
- User `Converter` hooks are not modelled: `ToDynamoDBEntry`'s converter branch is not represented, and only the primitive and list branches are.
- `ConvertToAttributeValue` is treated as the identity: filters and keys keep the converted `Entry`.
- Entry conversion covers strings, the eight integral types, byte arrays and collections of them. The floating-point, `decimal`, `DateTime`, `Guid`, `MemoryStream`, `char` and `bool` branches of `TryToPrimitive` are left out.
- `CreateExpectedDocumentForVersion` and the generic `MakeKey<T>` are left out. The first only copies the stored version into an expected-value document. The second only resolves the config from a type and calls `MakeKey`.
- `GetCorrectHashKeyProperty` and `GetRangeKeyByIndex` are not part of this model; they are a parameter and a config map. `ItemStorageConfig.GetPropertyStorage` is modelled as a lookup that fails on an unknown name; a null name is taken to fail as a null dictionary key does, with ArgumentNullException for `key`.
- The `Primitive` conversions `AsByte` ... `AsULong` are not part of this model. They are modelled as invariant-culture integral parsing under `NumberStyles.Integer`, plus a range check, failing with a format or overflow error. The parse accepts white space (U+0009 to U+000D and U+0020) before and after the number and one leading `+` or `-`.
- Decimal.ParseInt: does not accept the trailing NUL characters the .NET number parser also tolerates.
- `StringUtils.FromString` is modelled as the identity, `FromInt` as decimal text, and `FromBool` as `true`/`false`.
- JSON string escaping, the `StringWriter` and the UTF-8 encoding of the body are left out. The body is the sequence of writer calls plus its unescaped text.
- `XmlUnmarshallerContext`, `JsonUnmarshallerContext`, `ErrorResponseUnmarshaller`, `JsonErrorResponseUnmarshaller`, and the string, int, long and bool unmarshallers are not part of this model. They are stated as the abstract token cursor above.
- Parsing of the error envelope is not modelled; `UnmarshallException` receives the parsed envelope.
- The request types the marshallers read are not part of this model. Their `IsSet*` checks are taken to follow the presence rules above.
- The initial resource path and content of a `DefaultRequest` are not part of this model. Both are modelled as absent until a marshaller sets them.
- The `GetInstance` singletons are modelled for the creates-once, same-instance behaviour only; their thread-safety is not modelled.
- Lists and dictionaries are values, not references: a caller that keeps a list and later mutates it is not modelled.
- `PointInTimeRestoreNotEnabledException` and the `*Response` classes are left out: the first only forwards to its base constructors, and the others only expose a property returning themselves.
- Booleans (`BoolUnmarshaller`) are decoded from the four spellings `true`, `True`, `false` and `False` only. `bool.Parse` also ignores case and surrounding white space; those other spellings are decoded as malformed.
- DynamoQuery.QueryFilterShape: counts the AddCondition calls in order, not the entries of the QueryFilter. The filter they leave is `FilterState`, where a later condition on the same attribute replaces an earlier one. `QueryFilter.AddCondition` is not part of this model; it is taken to store one condition per attribute name.
- CloudSearchIndexDocumentsResult.IndexDocumentsResult.IsSetFieldNames: requires a non-null list, because the source dereferences it without a null check.
- ElbDescribeLoadBalancerAttributes.MainLoopSpec: places the attributes in the run of depth-2-or-deeper tokens after a result element, which is what the loop scans. The model does not pair start and end elements, so it does not say where that element ends.
- ElbDescribeLoadBalancerAttributes.ResultAttributesHit: gives one element the attributes came from, as a step of the proof of MainLoopAttributesFrom; which element wins is stated by ResultLoopLast.
- ElbDescribeLoadBalancerAttributes.ResultLoopFrom: states where changed attributes came from, not which element wins; ResultLoopLast states that, and ResultLoopSpec combines both.
- ElbDescribeLoadBalancerAttributes.MainLoopMetadataFrom: states where changed metadata came from, not which element wins; MainLoopMetadataLast states that, and MainLoopMetadata combines both.
- ElbDescribeLoadBalancerAttributes.MainLoopAttributesFrom: states where changed attributes came from, not which element wins; MainLoopAttributesLast states that, and MainLoopAttributes combines both.
- ElbDescribeLoadBalancerAttributes.DecodeFrom: states where each present member came from, not which element wins; DecodeLastWins states that, and DecodeSpec combines both.

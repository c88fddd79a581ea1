# A model of pycryptoki's data path and of the TestRail plugin, with proofs

Two parts of this repository carry state, loops and arithmetic that can be stated apart from
ctypes, a PKCS #11 token and a network. This project models them in Dafny and proves what they
do, for all inputs and all runs. `dafny verify dfyconfig.toml` checks everything.

## The four parts

**Calls with output buffers** (`CInterface`, `AutoCArray`, `Refresh`, `TwoCalls`). A C function
that returns output in a variable-length buffer follows section 11.2 of PKCS #11 v2.20: a NULL
buffer asks for a size and changes nothing, a buffer too short changes nothing, otherwise the
output is stored and the size cell says how much. `CInterface.Operation` is any such function
over any state; `Call` is the foreign call itself, and its precondition is that the caller does
not claim more room than there is. `AutoCArray` is the class of common_utils.py with its two
self-initialising properties, `RefreshCArrays` the loop of its decorator, and `Closure` the
closure over one array that is re-run.

**Encryption and decryption** (`Chunks`, `Multipart`, `MultipartProofs`, `MultipartCases`,
`Encryption`, `EncryptionAnswers`, `EncryptionProofs`, `BlockCipher`). The multipart driver is
modelled for any two C functions, as it is written. A token is a session that is idle or has one
active operation (sections 11.8 and 11.9) and a cipher that is any streaming transform with its
own size queries, which may overestimate and may fail. `Crypt` stands for both `c_encrypt` and
`c_decrypt`: the two differ only in the C functions they call, which the cipher supplies.
`MultipartCases` and `EncryptionAnswers` give the result of every request by what those functions
do. `BlockCipher` shows that the assumptions about a cipher can be met together: one that holds
back partial blocks, has output left for Final and overestimates sizes is a token in this sense,
and has an inverse.

**Attributes** (`Bytes`, `ByteCodec`, `HexCodec`, `Attributes`, `AttributesProofs`).
`to_byte_array` is modelled the way it works, through a string of binary digits cut in eights.
Memory behind `pValue` is bytes, or another array of records. The table of transforms is a
parameter, so the theorems hold for the one in the source and for any other.

**TestRail** (`Results`, `TestRailServer`, `Reconciling`, `Publishing`, `TestRailPlugin`,
`PublishingProofs`, `Sessions`, `ClosingProofs`, `Options`). The server is a database of plans, entries, runs and tests that
requests change; the plugin is a class whose hooks are methods. A session is what the hooks do in
order: collection, results, and at the end publishing and closing. The theorems of `Sessions` are
about one such session and about any number of them, up to the statuses the server ends with.
With close_on_complete the run does not stay the same: `Sessions.Closes` says which sessions close
what the next one would look up, and `ClosingProofs` what then happens. `Options` proves exactly
when each of the options that name a run has an effect.

`Counterexamples` holds concrete inputs on which the code does something one might not expect.

## Where the code and its documentation differ

- `do_multipart_operation` says of its error path that no operation should stay active
  (encryption.py:294). One does in the cases that `OperationLeftActive` lists.
- `c_encrypt` says that data is converted to hexadecimal (encryption.py:39-41). It is passed on as
  the bytes it consists of, the first part of `ItemsRoundTrip`; that is never its hex text unless
  both are empty, the last part.
- `ca_get_token_policies` says None is returned if the command failed (token_management.py:205).
  A dictionary of what the arrays hold is returned in any case: `PolicyDictAfterFailure`.
- The command line help says of a run number and of a plan number that they make the run name be
  ignored (pytest_testrail/conftest.py:69-80). `NameIsIgnored` says when it is; the plan number has
  no part in that, or in anything else: `PlanNumberIsIgnored`.
- `add_results` says results are sorted by case and by status (plugin.py:393). They are sorted
  by case only, stably, so the last in execution order wins; `SortedByStatusToo` says when both
  orders are the same.

## Model

| member | source | states |
|---|---|---|
| CInterface.Call | pypkcs11/pycryptoki-install/pycryptoki/encryption.py:264-266 | one foreign call: state, code, size cell and the stored prefix of the buffer are as section 11.2 of PKCS #11 v2.20 says, the rest of the buffer is untouched, and never more is written than the buffer holds |
| CInterface.ExchangeMeaning | pypkcs11/pycryptoki-install/pycryptoki/encryption.py:255-288 | querying and then fetching succeeds exactly when the operation itself does, a given buffer exactly when the output fits too, with the same bytes and next state |
| AutoCArrays.AutoCArray.Unsized | pypkcs11/pycryptoki-install/pycryptoki/common_utils.py:51-53 | an array for output starts with neither buffer nor size |
| AutoCArrays.AutoCArray.Sized | pypkcs11/pycryptoki-install/pycryptoki/common_utils.py:51-53 | a given size cell is shared with the caller, not copied |
| AutoCArrays.AutoCArray.FromData | pypkcs11/pycryptoki-install/pycryptoki/common_utils.py:56-68 | given data becomes buffer and size, in fresh memory |
| AutoCArrays.AutoCArray.Array | pypkcs11/pycryptoki-install/pycryptoki/common_utils.py:72-106 | NULL without a size; otherwise the one buffer, allocated zeroed at the present size on first use and never replaced |
| AutoCArrays.AutoCArray.Size | pypkcs11/pycryptoki-install/pycryptoki/common_utils.py:108-129 | the one size cell, created holding zero on first use and never replaced |
| AutoCArrays.AutoCArray.Len | pypkcs11/pycryptoki-install/pycryptoki/common_utils.py:131-135 | the capacity of the buffer, zero without one |
| AutoCArrays.AutoCArray.Iterate | pypkcs11/pycryptoki-install/pycryptoki/common_utils.py:137-144 | iteration yields every element of the buffer in order, whatever the size cell says |
| AutoCArrays.SizeAndCapacityPersist | pypkcs11/pycryptoki-install/pycryptoki/common_utils.py:51-129 | over every interleaving of property reads and writes by pointer holders: a size exists exactly if given or read, and an allocated buffer keeps its capacity |
| AutoCArrays.CapacityOrigin | pypkcs11/pycryptoki-install/pycryptoki/common_utils.py:96-106 | allocation happens at exactly one event, the first array read that found a size, and the capacity is the size value then, however the cell is written later |
| AutoCArrays.NullOnlyWhileUnsized | pypkcs11/pycryptoki-install/pycryptoki/common_utils.py:96-99 | an array read hands out NULL exactly when no size was given and none was read before it |
| Refresh.RunsStopAtFirstFailure | pypkcs11/pycryptoki-install/pycryptoki/common_utils.py:191-199 | for any wrapped function and any retries >= 0 there are between 1 and retries + 1 runs, all but the last succeed, and fewer happen only if the last failed |
| Refresh.RunsAre | pypkcs11/pycryptoki-install/pycryptoki/common_utils.py:191-199 | no other number of runs has those properties |
| Refresh.OkMeansEveryRunOk | pypkcs11/pycryptoki-install/pycryptoki/common_utils.py:191-199 | CKR_OK comes back exactly when each of retries + 1 runs returns it |
| Refresh.RefreshCArrays | pypkcs11/pycryptoki-install/pycryptoki/common_utils.py:182-201 | the loop makes that many calls and returns the last code, for any number of retries, negative ones included, and every call keeps within the buffer |
| Refresh.Closure.Invoke | pypkcs11/pycryptoki-install/pycryptoki/encryption.py:90-95 | one run of a closure in either order of reading; success leaves the next run within the buffer |
| TwoCalls.ArrayFirstExchanges | pypkcs11/pycryptoki-install/pycryptoki/common_utils.py:155-201 | reading array before size, one retry on a fresh array is exactly a query and a fetch, including all failures |
| TwoCalls.ArrayFirstDelivers | pypkcs11/pycryptoki-install/pycryptoki/common_utils.py:131-201 | with a sufficient query the closure succeeds exactly when the callee does; the answer is the prefix the size cell measures, and iteration is the answer exactly if the query was exact |
| TwoCalls.SizeFirstNeedsEmptyAnswers | pypkcs11/pycryptoki-install/pycryptoki/common_utils.py:112-121 | reading size first, the closure succeeds exactly when the callee can really be carried out retries + 1 times in a row with an empty answer each time; a longer first answer is refused with the state unchanged |
| TwoCalls.PolicyDictIsTheCalleesMap | pypkcs11/pycryptoki-install/pycryptoki/token_management.py:208-220 | when the callee delivers its two lists, the dictionary zipped from the arrays is the callee's exactly when one of the sizes is exact or it maps 0 to 0 anyway |
| TwoCalls.PolicyDictAfterFailure | pypkcs11/pycryptoki-install/pycryptoki/token_management.py:205-220 | when it does not, there is a dictionary all the same: empty exactly after a refused query or one that announced no room, otherwise 0 mapped to 0 |
| TwoCalls.PolicyCodeTells | pypkcs11/pycryptoki-install/pycryptoki/token_management.py:211-220 | the code that comes with the dictionary is the first failure of query and fetch, and CKR_OK exactly when the callee delivers |
| TwoCalls.DictZipOfDistinctIds | pypkcs11/pycryptoki-install/pycryptoki/token_management.py:220-220 | with distinct identifiers the dictionary has exactly them, each with its own value |
| Chunks.JoinSplit | pypkcs11/pycryptoki-install/pycryptoki/encryption.py:110-129 | joining the blocks gives back the string, for every block size |
| Chunks.SplitBlocks | pypkcs11/pycryptoki-install/pycryptoki/encryption.py:118-119 | block i starts at i times the block size; all are full but the last, which ends with the string |
| Chunks.SplitCount | pypkcs11/pycryptoki-install/pycryptoki/encryption.py:118-119 | there are as many blocks as the length requires |
| Multipart.Fetch | pypkcs11/pycryptoki-install/pycryptoki/encryption.py:255-291 | an Update or Final with its buffer: result cut at the size cell, and the number of calls it makes |
| Multipart.UpdateChunks | pypkcs11/pycryptoki-install/pycryptoki/encryption.py:251-291 | the chunk loop stops at the first refusal or missing buffer, with the outputs until then and no call to Final |
| Multipart.DoMultipart | pypkcs11/pycryptoki-install/pycryptoki/encryption.py:219-329 | result and final state of the driver for any C functions, chunks and sizes, and how often Final is called: once after a failed Update |
| MultipartProofs.DriveMeaning | pypkcs11/pycryptoki-install/pycryptoki/encryption.py:251-329 | CKR_OK exactly when the logical stream reaches its end and all outputs have room, and then the whole stream is returned |
| MultipartProofs.ModesAgree | pypkcs11/pycryptoki-install/pycryptoki/encryption.py:251-329 | ample buffers and queried buffers succeed alike, with equal bytes and state, and fail with equal partial data |
| MultipartProofs.FailureReport | pypkcs11/pycryptoki-install/pycryptoki/encryption.py:264-302 | on failure the first failing code, exactly the outputs of the chunks before it, and one Final with 0xffff bytes of room; IndexError exactly when accepted chunks outrun the buffer list |
| MultipartCases.GivenBuffersDecide | pypkcs11/pycryptoki-install/pycryptoki/encryption.py:254-311 | with buffers given, by what the two C functions really do: chunk i goes into sizes[i], the first chunk that fails, does not fit its own buffer or has none decides the code, the data and the state, and Final needs room in the largest |
| MultipartCases.GivenBuffersSucceed | pypkcs11/pycryptoki-install/pycryptoki/encryption.py:254-311 | CKR_OK exactly when there is a buffer for each chunk, each output fits its own, and the last output fits some buffer of the list |
| MultipartCases.QueriesDecide | pypkcs11/pycryptoki-install/pycryptoki/encryption.py:258-329 | with sizes queried, the first failure of a query or a call decides, with the outputs before it |
| Encryption.Crypt | pypkcs11/pycryptoki-install/pycryptoki/encryption.py:59-104 | what c_encrypt (and likewise c_decrypt) returns for a bytestring or a list, buffers given or queried, and the state of the session after it |
| Encryption.CryptWhole | pypkcs11/pycryptoki-install/pycryptoki/encryption.py:179-213 | the single-part call through a self-sizing array returns exactly what the token wrote last, cut at the size cell |
| EncryptionAnswers.RefusedAtOnce | pypkcs11/pycryptoki-install/pycryptoki/encryption.py:64-70 | an active operation refuses every request, and a failed Init is reported with its own code |
| EncryptionAnswers.WholeIntoBuffer | pypkcs11/pycryptoki-install/pycryptoki/encryption.py:78-104 | one piece into a given buffer: code, data and session by what the cipher does |
| EncryptionAnswers.WholeQueried | pypkcs11/pycryptoki-install/pycryptoki/encryption.py:87-104 | one piece after a query: the code of the query if that fails, else that of the call |
| EncryptionAnswers.PiecesIntoBuffers | pypkcs11/pycryptoki-install/pycryptoki/encryption.py:72-75 | several pieces into given buffers: the code of the first thing that goes wrong, the output before it, and the session |
| EncryptionAnswers.PiecesQueried | pypkcs11/pycryptoki-install/pycryptoki/encryption.py:72-75 | several pieces with queried sizes: the same, where a query may go wrong too |
| EncryptionProofs.SinglePart | pypkcs11/pycryptoki-install/pycryptoki/encryption.py:170-213 | single-part success, result and session state, both directions: exact output under any overestimate, and an operation left active only by a given buffer that is too small |
| EncryptionProofs.OperationLeftActive | pypkcs11/pycryptoki-install/pycryptoki/encryption.py:293-327 | which inputs leave an operation active, both directions: too few buffers for the chunks that are taken, too little room for Final, or an output without room when Final has more than 0xffff bytes; never on CKR_OK and never when sizes are queried |
| EncryptionProofs.QueriedJobsLeaveNothingActive | pypkcs11/pycryptoki-install/pycryptoki/encryption.py:66-75 | no series of encryptions and decryptions with queried sizes, failures included, leaves an operation active |
| EncryptionProofs.FeedIsOneUpdate | pypkcs11/pycryptoki-install/pycryptoki/encryption.py:254-291 | feeding the pieces is feeding their concatenation, for any streaming cipher |
| EncryptionProofs.PiecesAreAllAtOnce | pypkcs11/pycryptoki-install/pycryptoki/encryption.py:251-329 | multipart processing of any pieces succeeds with queried sizes exactly when their concatenation can be processed at once, with the same bytes, and leaves the session idle |
| EncryptionProofs.RoundTrip | pypkcs11/pycryptoki-install/pycryptoki/encryption.py:110-329 | split at any block size, encrypt with given or queried buffers, split at any other block size, decrypt: the data comes back |
| EncryptionProofs.RoundTripGivenBuffers | pypkcs11/pycryptoki-install/pycryptoki/encryption.py:110-329 | the same when decryption gets its own buffers, if they are ample |
| ByteCodec.IntBytesAreShortest | pypkcs11/pycryptoki-install/pycryptoki/attributes.py:226-237 | for every n >= 0 the bytes are the unique shortest big-endian spelling, with value n, max(1, ceil(bits / 8)) of them and no leading zero |
| ByteCodec.BlocksSpell | pypkcs11/pycryptoki-install/pycryptoki/attributes.py:233-237 | cutting a whole number of eights of binary digits into bytes keeps the value |
| ByteCodec.NegativeBytes | pypkcs11/pycryptoki-install/pycryptoki/attributes.py:226-237 | below zero the bytes are those of the magnitude with the first one negated, unless it fills whole bytes: then of half of it, and one more byte for the last bit |
| Bytes.ShortestIsUnique | pypkcs11/pycryptoki-install/pycryptoki/attributes.py:226-237 | no other bytes without a leading zero spell the same number |
| HexCodec.NumberRoundTrip | pypkcs11/pycryptoki-install/pycryptoki/attributes.py:194-237 | any n >= 0 comes back as lower-case hex text of whole bytes with value n |
| HexCodec.HexRoundTrip | pypkcs11/pycryptoki-install/pycryptoki/attributes.py:211-221 | hex text, with or without 0x, comes back lower-case, in whole bytes without leading zero bytes, with the same value; a second pass changes nothing |
| HexCodec.CanonicalIsShortest | pypkcs11/pycryptoki-install/pycryptoki/attributes.py:200-237 | that canonical text, defined on the digits alone, is the hex form of the shortest bytes |
| HexCodec.RawRoundTrip | pypkcs11/pycryptoki-install/pycryptoki/attributes.py:211-218 | a bytestring comes back as it was exactly when it shows an escape and does not begin with 0x |
| HexCodec.ItemsRoundTrip | pypkcs11/pycryptoki-install/pycryptoki/attributes.py:222-224 | lists of byte values come back, as bytes and as hex text, and are not replaced by that text |
| HexCodec.ArrayRepeats | pypkcs11/pycryptoki-install/pycryptoki/attributes.py:194-224 | an array's hex text can be converted again exactly if the array is not empty, and gives the same array exactly if it has no leading zero byte |
| HexCodec.EscapedText | pypkcs11/pycryptoki-install/pycryptoki/attributes.py:211-218 | text with an unprintable byte, or a backslash and an x, is taken raw, less one leading 0x and only one |
| HexCodec.PlainText | pypkcs11/pycryptoki-install/pycryptoki/attributes.py:211-221 | any other text is taken exactly if it is all hex digits, small or capital, after one leading 0x |
| HexCodec.DigitCharacters | pypkcs11/pycryptoki-install/pycryptoki/attributes.py:220-221 | the sixteen digits, small or capital, and their values |
| Attributes.GetCStruct | pypkcs11/pycryptoki-install/pycryptoki/attributes.py:389-417 | one record per key in key order, new_transforms first; an exception exactly if some transform raises |
| Attributes.CStructToPython | pypkcs11/pycryptoki-install/pycryptoki/attributes.py:430-447 | the loop builds the dictionary in which a repeated type keeps its last value |
| AttributesProofs.DictionaryShowsLast | pypkcs11/pycryptoki-install/pycryptoki/attributes.py:437-447 | the dictionary shows, for each type, the last record of that type |
| AttributesProofs.RecordsAreCStruct | pypkcs11/pycryptoki-install/pycryptoki/attributes.py:395-417 | filled record by record, the array is the one nested templates get |
| AttributesProofs.TreeMirrored | pypkcs11/pycryptoki-install/pycryptoki/attributes.py:242-258 | at any nesting depth, conversion succeeds exactly when every value suits its transform, and the records mirror the dictionaries, nested lengths being attribute counts |
| AttributesProofs.WrittenBytes | pypkcs11/pycryptoki-install/pycryptoki/attributes.py:85-237 | the bytes in memory for each kind of attribute, and that the length counts exactly them |
| AttributesProofs.WhichTransform | pypkcs11/pycryptoki-install/pycryptoki/attributes.py:395-417 | new_transforms decide alone, else the table, else to_byte_array |
| AttributesProofs.MemoryReadsBack | pypkcs11/pycryptoki-install/pycryptoki/attributes.py:82-204 | how memory written by anyone reads back: as many bytes as the record counts, or as the number has |
| AttributesProofs.ItemRoundTrip | pypkcs11/pycryptoki-install/pycryptoki/attributes.py:72-237 | one attribute of any kind reads back in its normal form, whatever memory follows its value |
| AttributesProofs.TemplateRoundTrip | pypkcs11/pycryptoki-install/pycryptoki/attributes.py:389-447 | a flat template with keys that fit reads back with the same keys, each value in its normal form, whatever memory follows the values |
| AttributesProofs.NormalIsIdentityInRange | pypkcs11/pycryptoki-install/pycryptoki/attributes.py:72-105 | an integer in a CK_ULONG is unchanged exactly when it is not negative and fits, a bool always |
| Results.MergedRecord | pytest-testrail/pytest_testrail/plugin.py:297-323 | over every report sequence a base test's record is its first eligible outcome, then one failure exactly if that passed and some later one failed |
| Results.LastRecordTellsFailure | pytest-testrail/pytest_testrail/plugin.py:300-323 | the last record is a failure iff some eligible report failed, except exactly when the first was a skip and one failed |
| Results.NamesAgree | pytest-testrail/pytest_testrail/plugin.py:301-301 | two reports belong to one base test exactly if their names agree up to the first bracket |
| Results.RecordsMeans | pytest-testrail/pytest_testrail/plugin.py:297-332 | which report is recorded, with and without merging and publish_errors, by the reports before it |
| Results.OtherTestsDoNotMatter | pytest-testrail/pytest_testrail/plugin.py:301-323 | a report of another test, wherever it comes, never changes whether one is recorded |
| Results.SortIsStable | pytest-testrail/pytest_testrail/plugin.py:398-398 | sorting orders by case and keeps each case's results in execution order |
| Results.StableSortIsUnique | pytest-testrail/pytest_testrail/plugin.py:398-398 | no other list is so ordered |
| Results.SortedByStatusToo | pytest-testrail/pytest_testrail/plugin.py:393-398 | the sort is also by status within each case, as the comment says, exactly if no case's statuses ever fall in execution order |
| Reconciling.ExtendsExistingRun | pytest-testrail/pytest_testrail/plugin.py:215-271 | collection on an existing run adds exactly the missing cases, keeps statuses and everything else, and posts exactly if something is new |
| Reconciling.CreatesMissingRun | pytest-testrail/pytest_testrail/plugin.py:234-282 | collection creates a missing run, and its plan, with a new number, and the options name it from then on |
| Reconciling.LeftIdsPublish | pytest-testrail/pytest_testrail/plugin.py:202-349 | the two ids collection leaves lead the end of the session back to the run it reconciled or created, in all modes |
| Reconciling.RequestPosted | pytest-testrail/pytest_testrail/plugin.py:224-271 | which of the three update requests is posted in which mode, and for which run or entry |
| Reconciling.CollectedAre | pytest-testrail/pytest_testrail/plugin.py:133-147 | a case is collected exactly if some item is marked with it and not skipped |
| TestRailPlugin.Plugin.FindNamed | pytest-testrail/pytest_testrail/plugin.py:755-761 | the search loops find the first row of that name |
| TestRailPlugin.Plugin.GetTestrunIdInTestplan | pytest-testrail/pytest_testrail/plugin.py:741-761 | the run of the plan's first entry of the run's name, or an exception |
| TestRailPlugin.Plugin.TestrailKeys | pytest-testrail/pytest_testrail/plugin.py:133-147 | the case numbers of all marked items that are not skipped, in order and as often as they are marked |
| TestRailPlugin.Plugin.UpdatedKeys | pytest-testrail/pytest_testrail/plugin.py:220-224 | comparing set sizes tells whether some collected case is new |
| TestRailPlugin.Plugin.ExtendNumberedRun | pytest-testrail/pytest_testrail/plugin.py:215-226 | the branch for a numbered run in a named plan |
| TestRailPlugin.Plugin.FindOrAddPlan | pytest-testrail/pytest_testrail/plugin.py:230-235 | the first open plan of the name, created if missing |
| TestRailPlugin.Plugin.ExtendEntry | pytest-testrail/pytest_testrail/plugin.py:237-251 | the run exists in the plan: the posted update, and the number set back to 0 |
| TestRailPlugin.Plugin.AddEntry | pytest-testrail/pytest_testrail/plugin.py:252-261 | the run does not: the posted entry and its new run's number |
| TestRailPlugin.Plugin.ReconcileInPlan | pytest-testrail/pytest_testrail/plugin.py:229-261 | the branch for a named run in a named plan: the requests, and the ids the session is left with |
| TestRailPlugin.Plugin.ReconcileOutsidePlans | pytest-testrail/pytest_testrail/plugin.py:263-282 | the branch for a named run outside plans, and when it raises |
| TestRailPlugin.Plugin.CollectionModifyItems | pytest-testrail/pytest_testrail/plugin.py:202-282 | for every configuration: the requests posted, and that the session is left publishing to the very run it reconciled or created, or nowhere without a run name |
| TestRailPlugin.Plugin.AddResult | pytest-testrail/pytest_testrail/plugin.py:359-379 | one result per case number, in order, is appended |
| TestRailPlugin.Plugin.MakeReport | pytest-testrail/pytest_testrail/plugin.py:284-333 | after every report the results are those of the recorded reports and the memory of outcomes is the last recorded one of each base test |
| TestRailPlugin.OneMoreRemembered | pytest-testrail/pytest_testrail/plugin.py:301-323 | the remembered outcome decides what recording depends on, for all earlier reports |
| TestRailPlugin.Plugin.BuildEntries | pytest-testrail/pytest_testrail/plugin.py:416-449 | each selected result becomes one entry with its status, case, defects and the version |
| TestRailPlugin.Plugin.AddResults | pytest-testrail/pytest_testrail/plugin.py:381-458 | the sorted results less the blocked cases are posted in one request |
| TestRailPlugin.Plugin.SessionFinish | pytest-testrail/pytest_testrail/plugin.py:335-355 | what is posted at the end, to which run, and what is closed; nothing without results or without a run |
| PublishingProofs.PostedSelection | pytest-testrail/pytest_testrail/plugin.py:398-409 | the posted list is sorted by case, has all results of each case that is not excluded, in execution order, and none of excluded ones |
| PublishingProofs.PostedByStatusToo | pytest-testrail/pytest_testrail/plugin.py:393-409 | and so is the posted list, exactly if that holds of the cases that are not excluded |
| PublishingProofs.PostedEntries | pytest-testrail/pytest_testrail/plugin.py:416-455 | the one request with results: its run, and an entry with status, case, defects and version for each selected result, in order |
| PublishingProofs.PublicationApplies | pytest-testrail/pytest_testrail/plugin.py:450-455 | when the run has all the cases the request is taken, and nothing but that run's statuses changes |
| PublishingProofs.StatusesAfterPublication | pytest-testrail/pytest_testrail/plugin.py:398-455 | the server ends with each case's last result in execution order; excluded cases and those without results keep their status |
| PublishingProofs.PublishesToTheSameRun | pytest-testrail/pytest_testrail/plugin.py:342-349 | whatever modelled requests reach the server between the hooks (none deletes or renames), results go to the run collection chose |
| Sessions.RunSession | pytest-testrail/pytest_testrail/plugin.py:202-355 | the three hooks in order leave the server as the description of a session says, exceptions included; an existing run gains exactly the cases of marked items that are not skipped |
| Sessions.EndRequests | pytest-testrail/pytest_testrail/plugin.py:335-355 | without results nothing is sent at the end; otherwise the results to the session's run and then what closes |
| Sessions.ClosingRequest | pytest-testrail/pytest_testrail/plugin.py:351-354 | with close_on_complete the plan is closed if the run was found there by name, and the run otherwise |
| Sessions.SessionStatus | pytest-testrail/pytest_testrail/plugin.py:202-455 | for every case of the run, in every configuration, the status after a whole session: its last result, unless blocked cases are held back and it was one, or a result for a case foreign to the run makes the server refuse all |
| Sessions.SessionVerdict | pytest-testrail/pytest_testrail/plugin.py:202-355 | a whole session with merging: a case ends failed if some eligible report of its test failed and passed if none did, unless the first was a skip, when it ends blocked; a held-back case stays blocked, and a foreign result leaves all as it was |
| Options.NameIsIgnored | pytest-testrail/pytest_testrail/plugin.py:210-263 | exactly when the run name makes no difference on any server, over any sessions: if a run number is given together with a plan name and some run name; a number alone, or a plan number, does not make it so |
| Options.NumberIsIgnored | pytest-testrail/pytest_testrail/plugin.py:210-263 | exactly when the run number makes no difference: if the plan name or the run name is missing |
| Options.PlanNumberIsIgnored | pytest-testrail/pytest_testrail/plugin.py:210-355 | the plan number never makes any difference |
| Options.RunNumberCounts | pytest-testrail/pytest_testrail/plugin.py:210-229 | the halves of these that hold over any sessions on any server, consistent or not; without a run name nothing happens at all |
| Sessions.KnownRunAfter | pytest-testrail/pytest_testrail/plugin.py:202-355 | one session on a run that exists: its cases, that only statuses in it change, and which run or plan is closed |
| Sessions.RunEndsAsUnion | pytest-testrail/pytest_testrail/plugin.py:202-355 | any number of sessions, each publishing its results, leave the run with exactly its initial cases and all collected ones and still named by the options, as long as none closes it |
| Sessions.FurtherSession | pytest-testrail/pytest_testrail/plugin.py:223-271 | a further session posts no update exactly when all its cases were there or collected, so a repeated one posts none |
| ClosingProofs.CreatedRunAfter | pytest-testrail/pytest_testrail/plugin.py:234-355 | a session that creates its run: the run's cases, that nothing but this run is new, and that the next session raises exactly if it was closed outside plans |
| ClosingProofs.CreatedRunEndsAsUnion | pytest-testrail/pytest_testrail/plugin.py:202-355 | any number of sessions from a server without the run: outside plans the run has the cases of all sessions up to the first that closes it, be it the one that created it, and then all raise; in a plan as long as no later one closes the plan; with include_all the first session's own cases are not added |
| Sessions.StatusesOverSessions | pytest-testrail/pytest_testrail/plugin.py:202-455 | every case's status after any number of such sessions, from its initial one |
| Sessions.LastSessionCounts | pytest-testrail/pytest_testrail/plugin.py:398-455 | which is its last result of all sessions, if blocked cases are published and each session has results of its own cases |
| Sessions.BlockedStays | pytest-testrail/pytest_testrail/plugin.py:400-409 | a case once blocked stays so for good if blocked cases are held back |
| ClosingProofs.ClosingSession | pytest-testrail/pytest_testrail/plugin.py:351-354 | a session that closes leaves the options naming the next open run or plan of that name; without one the next session raises, exactly, outside plans, and makes a new plan otherwise |
| ClosingProofs.RunsAreUsedUp | pytest-testrail/pytest_testrail/plugin.py:264-265 | outside plans, after any number of sessions the next one raises exactly when as many have closed as there were open runs of the name, or at least one if there was no run of the name, open or not |
| ClosingProofs.PlansTakeTurns | pytest-testrail/pytest_testrail/plugin.py:229-261 | a run named in a plan, starting without an open plan of the name or with one that has the run: no session ever raises, and whether a plan is open and how many were made after any number of sessions |
| ClosingProofs.EverySecondMakesAPlan | pytest-testrail/pytest_testrail/plugin.py:229-355 | with close_on_complete and results every second session makes a plan |
| Counterexamples.SizeFirstFails | pypkcs11/pycryptoki-install/pycryptoki/common_utils.py:112-121 | reading size first fails for an answer of one element |
| Counterexamples.SizeFirstRunsTwice | pypkcs11/pycryptoki-install/pycryptoki/common_utils.py:112-121 | and for an empty answer of an operation that is over once carried out |
| Counterexamples.PaddingAddsAPolicy | pypkcs11/pycryptoki-install/pycryptoki/token_management.py:220-220 | an overestimated size adds a policy 0 with value 0 |
| Counterexamples.FailureGivesADictionary | pypkcs11/pycryptoki-install/pycryptoki/token_management.py:205-220 | a refused query gives an empty dictionary and a failed fetch one with 0 mapped to 0, not None |
| Counterexamples.RawBytesLosePrefix | pypkcs11/pycryptoki-install/pycryptoki/attributes.py:213-218 | raw bytes beginning with 0x lose these two bytes |
| Counterexamples.ArraysThatDoNotRepeat | pypkcs11/pycryptoki-install/pycryptoki/attributes.py:200-224 | the hex text of an empty array cannot be converted again, and that of 00 01 gives 01 |
| Counterexamples.ShortFinalBufferLeavesActive | pypkcs11/pycryptoki-install/pycryptoki/encryption.py:304-311 | a Final buffer that is too small leaves the operation active |
| Counterexamples.LongTrailerLeavesActive | pypkcs11/pycryptoki-install/pycryptoki/encryption.py:293-302 | so does the Final that is to clean up, if more than 0xffff bytes are pending |
| Counterexamples.ShortBufferListLeavesActive | pypkcs11/pycryptoki-install/pycryptoki/encryption.py:254-262 | so does a list of buffers shorter than the list of chunks |
| Counterexamples.SkipHidesFailure | pytest-testrail/pytest_testrail/plugin.py:312-323 | a failure after a skip is not recorded |
| Counterexamples.SortingIgnoresStatus | pytest-testrail/pytest_testrail/plugin.py:393-398 | a failed and then a passed result of one case stay in that order |
| Counterexamples.NumberYieldsToName | pytest-testrail/pytest_testrail/plugin.py:263-271 | outside plans a session takes the run of the name, not that of the number |
| Counterexamples.IncludeAllDropsCollectedCase | pytest-testrail/pytest_testrail/plugin.py:273-282 | a run created with the whole suite lacks a collected case outside it |
| Counterexamples.ForeignResultDropsTheOthers | pytest-testrail/pytest_testrail/plugin.py:450-458 | and that case's result takes the other results down with it |
| Counterexamples.HeldBackStaysBlocked | pytest-testrail/pytest_testrail/plugin.py:400-409 | a blocked case that passes stays blocked if blocked cases are held back |
| Counterexamples.ClosingMakesNextSessionRaise | pytest-testrail/pytest_testrail/plugin.py:351-352 | closing the only run of its name makes the next session raise |
| Counterexamples.OwnRunClosedMakesNextSessionRaise | pytest-testrail/pytest_testrail/plugin.py:351-352 | and so does closing the run that the session has made itself |
| Counterexamples.CompletedRunRaises | pytest-testrail/pytest_testrail/plugin.py:264-265 | a completed run of that name makes collection raise |

## Left out

- ctypes pointers, casts, object lifetimes and DLL loading; buffers are arrays and NULL is null.
- Sizes and buffer lengths are unbounded; the 64-bit range of CK_ULONG is modelled for attribute values and types only.
- Cryptography, mechanisms and keys: a cipher is any transform, and its inverse is an assumption of the round trip.
- Closures over two arrays are run on the values of both arrays, so aliasing between their size cells is not captured; closures over one array are run on objects.
- Exceptions raised for a wrong Python type of a buffer argument, such as a list of sizes for a bytestring.
- c_wrap_key and the other users of the single-array closure, which repeat the pattern of CryptWhole.
- Text that int(text, 16) accepts although it is not plain hex digits (signs, spaces, underscores, a second 0x): the model rejects it.
- Dates given as dictionaries or date objects, and lists of strings as character arrays.
- Reading nested templates back, which takes the length of a pointer in the source.
- HTTP, retries on code 429, JSON, printing, pagination, and error replies other than an unknown run.
- The text of comments, elapsed times, parameters and custom fields in posted entries; the patterns that extract case numbers from marker texts.
- A server whose lists refer to rows it does not have: `Consistent` is assumed of it, and every request keeps it.
- Several runs in one plan entry; the order in which the server lists a row that was just created.
- A server that refuses results, updates or further closing for what is closed: here a closed run still takes them, and a run within a plan can be closed by itself.
- skip_missing, update and milestone options, which collection does not use or only passes on.

# Marshalling between Python values and C++ fields in DCore-Python

DCore-Python is a Boost.Python binding. Apart from registration tables, its own logic is the layer
that moves values between Python objects and fields of C++ objects. This project models that layer
and proves what its getters, setters and converters do, on every input and over whole runs of
assignments, including assignments that an exception cuts short.

How the source's notions appear here:

- **Extraction** (`bp::extract`) is a partial function from Python values to C++ values; where it
  is None, reading the extracted value throws. It need not be injective: `AccountId` objects have a
  hash but no `__eq__`, so different Python keys may extract to one C++ key.
- **Ordered sets and maps** are strictly sorted sequences. The comparator is given by a rank in the
  reals, which is fully general: every strict weak order on countably many values embeds in the
  rationals. Elements of equal rank may still differ. `insert` keeps the element that is there;
  `operator[]` inserts a default value when the key is missing. These two are the assumed interface
  of Boost's and the standard library's containers.
- **Python dicts** are sequences of entries in insertion order, with `canon` choosing a
  representative of each class of equal keys.
- **Setters** are methods of a class with the source's count-down loops. A setter's contract gives
  its outcome and the exact field afterwards as a function of the field before (`ListAfter`,
  `SetAfter`, `DictAfter`), also when it raises; the lemmas say what these functions mean.
- **Evaluation order** in the dict setter's `container[key] = value` is open in C++14. The flag
  `slotFirst` stands for the compiler's choice, and everything is proved for both.

Modules: `Prelude`, `Ordered` (containers), `PyDict`, `Conversion` (one setter call), `Fields` (the
object and its accessors), `ListLaws`, `SetLaws`, `MapLaws`, `Runs` (sequences of assignments),
`Retries` (assigning again after an exception), `Lookups` (the wallet's converters and batched
lookups), `PyObjects`, `Variants`, `ByteArrays`, `Extensions`, `Registry` (static variants and
accessor tables), `Operations` (the accessors of Operation) and `Proposals`.

Where the code does less than its interface suggests, it is modelled as it is, with the exact
condition proved: the set and dict setters do not replace the field's contents (`SetReplacedIff`,
`DictReplacedIff`, with `OldElementStays`, `OldEntryStays` and, over runs, `RunSafety`), the order of an
assigned list can decide which element stays (`OrderIrrelevantIff`, `OrderCanMatter`), out-of-range
integers are stored as 2^64 - 1 with an error pending (`PythonRoundTripIff`), a failed dict assignment
can leave an entry that a corrected retry does not remove (`DictRetryIff`, `RetryCanKeepLeftOver`), and
asset-symbol predicates cannot be read from any attribute (`PredicateReadableIff`).

## Model

| member | source | states |
|---|---|---|
| Ordered.InsertMeaning | src/module.hpp:83 | inserting keeps the set strictly sorted, keeps an element already there with the same rank, and changes no other rank |
| Ordered.ModifyMeaning | src/asset.cpp:19 | writing through an iterator changes that element only and keeps the order when the key is kept |
| Ordered.InsertAllMeaning | src/module.hpp:77-85 | after inserting a list from its end: for each rank the old element, otherwise the last list element with it; sorted throughout |
| Ordered.InsertAllTwice | src/module.hpp:77-85 | one set assignment after another equals a single one of the later list followed by the earlier |
| Ordered.ApplyOpMeaning | src/module.hpp:64 | one use of `operator[]`: an existing key object stays, a missing key gets an entry, the value is the assigned one or the default |
| Ordered.ApplyAllMeaning | src/module.hpp:57-66 | any number of such uses: key object of the first, value of the last assignment, old entries never removed |
| Ordered.ApplyAllTwice | src/module.hpp:57-66 | one dict assignment after another equals a single walk over both |
| PyDict.GetOwnKey | src/module.hpp:59-63 | looking up a key taken from `keys()` gives that entry's own value |
| PyDict.CollectMeaning | src/module.cpp:55-62 | a dict grown by `setdefault` has no two equal keys and holds, for each, the first item seen and nothing else |
| PyDict.CollectKeepsAll | src/module.cpp:55-62 | nothing is dropped if and only if no two items have Python-equal keys; then order is kept |
| Conversion.Stop | src/module.hpp:40-44 | one past the highest position whose conversion throws, 0 if none does |
| Conversion.Reached | src/module.hpp:40-44 | the values converted before the walk ends, in list order |
| Conversion.Resize | src/module.hpp:40 | the new length, old elements first, then defaults |
| Fields.AfterStaysSorted | src/module.hpp:36-85 | no assignment, complete or cut short, breaks the order of a container |
| Fields.BoundObject.DecodeList | src/module.hpp:36-45 | outcome and exact vector, also when a conversion throws; refines an element-wise map |
| Fields.BoundObject.DecodeSet | src/module.hpp:77-85 | outcome and exact set: everything above the throwing position merged into the old contents |
| Fields.BoundObject.AssignEntry | src/module.hpp:62-64 | one `container[key] = value`: stored, or the entry left behind when the value does not convert |
| Fields.BoundObject.DecodeDict | src/module.hpp:56-66 | outcome and exact map, also when a key or value does not convert |
| Fields.BoundObject.EncodeOptional | src/module.hpp:121-125 | the optional becomes the converted value; a failed conversion leaves it alone |
| Fields.BoundObject.Assign | src/operation.cpp:472-493 | done exactly when everything converts, else raised at the highest position that does not; a vector is converted above that position and old or default elsewhere; sets and maps as specified; other fields untouched, containers sorted |
| Fields.BoundObject.EncodeList | src/module.hpp:27-34 | the converted elements in order |
| Fields.BoundObject.EncodeSet | src/module.hpp:68-75 | the converted elements in the set's order |
| Fields.BoundObject.EncodeDict | src/module.hpp:47-54 | exactly the pair (converted key, converted value) of each stored entry that is the first of its Python key; all entries in order when no keys collide |
| Fields.AssignmentPerforms | src/module.hpp:36-125 | outcome and effect of every assignment, in terms of the conversions alone |
| Conversion.OutcomeMeans | src/module.hpp:41-44 | a walk is done exactly when everything converts and raises at the highest position that does not |
| Conversion.DictOutcomeMeans | src/module.hpp:61-65 | the same for a dict, where an entry needs its key and its value |
| ListLaws.DecodeListContents | src/module.hpp:37-45 | new length; new values above the throwing position, old or default ones at and below; a complete assignment leaves nothing of the old vector |
| ListLaws.ListRoundTrip | src/module.hpp:27-45 | getter then setter, over any prior contents, is the element-wise trip; the identity when that is |
| ListLaws.PythonListRoundTripIff | src/module.hpp:27-45 | the getter returns the assigned list if and only if each element survives its own trip |
| ListLaws.OptionalRoundTripIff | src/module.hpp:99-113 | an optional survives the trip if and only if its value does not convert to None |
| ListLaws.OptionalFromPython | src/module.hpp:99-107 | empty exactly for None, an exception exactly for a value that does not convert, otherwise the converted value |
| SetLaws.DecodeSetContents | src/module.hpp:77-85 | the set holds exactly the old elements and, for each free rank, the last converted list element with it |
| SetLaws.OrderIrrelevantIff | src/module.hpp:77-85 | order and multiplicity of the list never matter if and only if equally ranked elements competing for a free place are equal |
| SetLaws.OrderCanMatter | src/chain.cpp:27-29 | two lists with the same elements that leave different sets, the comparator not telling the elements apart |
| SetLaws.AssignmentsCommuteIff | src/module.hpp:77-85 | two assignments commute if and only if they bring the same element to each free place both reach |
| SetLaws.AssignmentIdempotent | src/module.hpp:77-85 | assigning the same list again changes nothing |
| SetLaws.SetReplacedIff | src/module.hpp:77-85 | the field ends up as if it had been empty before if and only if every old element is the list's last of its rank |
| SetLaws.OldElementStays | src/module.hpp:77-85 | an assignment after which an element it does not name is still there |
| SetLaws.MergeSets | src/module.hpp:77-85 | assigning one set's elements to another adds exactly those at free places; into an empty field or over itself it gives that set |
| SetLaws.SetRoundTrip | src/module.hpp:68-85 | getter then setter restores the set into an empty field and leaves the field itself unchanged |
| MapLaws.PutsMeaning | src/module.hpp:57-66 | a complete dict assignment: the earliest entry's value for each rank, the old key object or else the latest entry's |
| MapLaws.DecodeDictContents | src/module.hpp:56-66 | the same for any assignment, plus the one default entry an exception can leave behind |
| MapLaws.DecodeDictValue | src/module.hpp:60-65 | the value of a reached position is stored unless an earlier reached position has an equally ranked key |
| MapLaws.DecodeDictKey | src/module.hpp:60-65 | its key object is stored unless there was one before or a later position has an equally ranked key |
| MapLaws.NothingLeftBehind | src/module.hpp:64 | when the value is evaluated first, an exception leaves no entry behind |
| MapLaws.SlotLeftBehind | src/module.hpp:64 | otherwise a raising entry whose key converts has a place afterwards, default-valued if new |
| MapLaws.DictAfterAt | src/module.hpp:56-66 | one rank at a time: the old key object or else the one brought, the value brought or else the old one or the default |
| MapLaws.DictReplacedIff | src/module.hpp:56-66 | the field ends up as if it had been empty before if and only if every old entry gets its own key object brought and a value, or holds the default |
| MapLaws.OldEntryStays | src/module.hpp:56-66 | an assignment after which an entry it does not name is still there |
| MapLaws.PutsKeepAll | src/module.hpp:56-66 | every dict entry gets a place of its own if and only if no two keys extract to equal C++ keys |
| MapLaws.DictAssignmentsCommuteIff | src/module.hpp:56-66 | two dict assignments, complete or cut short, commute if and only if they agree wherever both reach |
| MapLaws.PutOwnEntries | src/module.hpp:56-66 | assigning a map's own entries gives the map |
| MapLaws.MapRoundTripIff | src/module.hpp:47-66 | map to dict to map is the identity if and only if the converted keys are pairwise different for Python |
| MapLaws.DictRoundTripIff | src/module.hpp:47-66 | dict to map to dict keeps the number of entries if and only if no two keys collide, and then has the same converted entries |
| Runs.RunStaysSorted | src/module.hpp:36-85 | containers stay sorted over every run |
| Runs.RunOfSets | src/module.hpp:77-85 | over every run each place of the set is filled once, by the earliest assignment that reaches it |
| Runs.RunRanks | src/module.hpp:77-85 | the final set's ranks are those of the initial set and of everything converted on the way, no others |
| Runs.RunEntries | src/module.hpp:56-66 | over every run the map is exactly the fold of all uses of `operator[]` in it, left-over entries and key objects included |
| Runs.RunEntryAt | src/module.hpp:56-66 | each final entry has the old key object or else that of the first use, and the value written last, else the old one, else the default |
| Runs.RunOfDicts | src/module.hpp:56-66 | read off that fold: keys stay, the value written last stands, and what nothing wrote is as it was or, after an exception only, a default |
| Runs.RunOfLists | src/module.hpp:36-45 | over every run the vector has the length of the list assigned last, and its values if that succeeded; the optional holds the last converted value |
| Runs.RunListExact | src/module.hpp:36-45 | the vector after any run, position by position: converted from the list assigned last where it converts from there up, else what the run before had there, or the default |
| Runs.RunSafety | src/module.hpp:36-125 | over every run, failing or not: no set element lost, no key object lost, no optional cleared |
| Retries.ReachedAgain | src/module.hpp:36-85 | a retry that agrees above the throwing position gets at least as far and converts the same values there |
| Retries.ListRetry | src/module.hpp:36-45 | nothing of the failed assignment is left after the retry, even if the retry fails further down |
| Retries.SetRetry | src/module.hpp:77-85 | the set ends up as if the failed assignment had not been made, even if the retry fails further down |
| Retries.DictRetryIff | src/module.hpp:56-66 | the map ends up as if the failed assignment had not been made if and only if the entry it left behind had its place already or the retry, which may fail in turn, brings the same key object there |
| Retries.RetryCanKeepLeftOver | src/module.hpp:56-66 | a failed assignment whose left-over entry a successful retry does not remove |
| Lookups.VectorFromList | src/module.cpp:12-23 | throws exactly when an element does not convert; otherwise what the list setter leaves over any prior contents |
| Lookups.SetFromList | src/module.cpp:25-35 | throws exactly when an element does not convert; otherwise the set setter's result on an empty field |
| Lookups.ToList | src/module.cpp:37-44 | the converted elements in order |
| Lookups.ToOptionalList | src/module.cpp:46-53 | one position per element, None where there is no value |
| Lookups.ToDict | src/module.cpp:55-62 | exactly the pair (converted key, converted value) of each pair that is the first of its Python key; all pairs in order when none collide |
| Lookups.GetByIds | src/module.cpp:133 | one position per identifier, duplicates and order kept, None exactly where the query has no answer; no answer at all when an identifier does not convert |
| Variants.CStr | src/common.cpp:130 | the longest NUL-free prefix: the whole string, or up to the first NUL |
| Variants.PythonRoundTripIff | src/common.cpp:121-158 | extraction takes exactly None, bools, integers and strings; an integer outside [-2^63, 2^64) raises and is stored as 2^64 - 1, a string is cut at its first NUL; the trip is the identity if and only if neither happens |
| Variants.VariantRoundTrip | src/common.cpp:121-158 | what Python sees of each kind; variant to Python to variant is normalisation: idempotent, number-preserving, the identity exactly on the listed kinds |
| Variants.NormalFormsIff | src/common.cpp:134-158 | normal forms are exactly what can be constructed from Python values |
| Variants.SameInPythonIff | src/common.cpp:121-132 | two variants look the same from Python if and only if their normal forms are equal |
| Variants.RowRoundTrip | src/nft.cpp:64-66 | a row of NFT data read and assigned back is normalised element by element; a second trip changes nothing |
| Variants.PythonRowRoundTripIff | src/nft.cpp:64-66 | an assigned Python row is read back unchanged if and only if each value is in range |
| ByteArrays.ReinterpretIsBijection | src/operation.cpp:57-60 | reinterpreting elements as bytes is the two's complement bijection, signed or unsigned |
| ByteArrays.Construct | src/operation.cpp:67-75 | the storage holds the reinterpreted bytes, or zeros when the guard fails |
| ByteArrays.ArrayRoundTrip | src/operation.cpp:57-75 | array to bytearray is position by position, and back is the identity |
| ByteArrays.ByteArrayRoundTripIff | src/operation.cpp:57-75 | a value is accepted if and only if it is the bytearray of some array, which is then unique and the one constructed |
| Extensions.AssetOptions.EncodeExtension | src/asset.cpp:13-20 | the find-or-insert update, keeping the extension set sorted |
| Extensions.PutFieldFind | src/asset.cpp:13-20 | the write changes the field of its own tag only, creating the extension with default other fields if missing |
| Extensions.PutFieldSorted | src/asset.cpp:13-20 | at most one extension per tag; one is added only where there was none |
| Extensions.PutThenGet | src/asset.cpp:6-20 | get after put, for the same and for every other tag |
| Extensions.PutIsNoOpIff | src/asset.cpp:6-20 | a write changes nothing if and only if the value is already there |
| Extensions.PutTwice | src/asset.cpp:13-20 | the later write wins |
| Extensions.PutsCommute | src/asset.cpp:13-20 | writes to different tags commute |
| Registry.ReadThenWrap | src/module.hpp:127-131 | an attribute gives the content exactly where it answers, and re-wrapping restores the value |
| Registry.OneAccessorAnswers | src/module.hpp:127-131 | in any table with distinct names and alternatives a registered value has exactly one accessor that is not None |
| Registry.AllReadableIff | src/operation.cpp:80-171 | with distinct alternatives, all can be read if and only if no name is used twice |
| Registry.PredicateReadableIff | src/operation.cpp:436-444 | a predicate can be read if and only if it is not an asset-symbol one; which attribute reads which |
| Operations.OperationTableDistinct | src/operation.cpp:127-170 | no name and no type occurs twice among the 44 accessors of Operation |
| Operations.TypeInTable | src/operation.cpp:81-170 | every wrapped operation type has an accessor |
| Operations.OperationHasOneAccessor | src/operation.cpp:127-170 | every operation is read by exactly one attribute, that of its type, which gives its content |
| Operations.AttributeAnswersForType | src/operation.cpp:127-170 | the attribute of a type answers for that type and no other |
| Operations.Attributes0 | src/operation.cpp:127-129 | `account_create`, `account_update`, `asset_create`: each gives the content of an operation of its own type and None for any other |
| Operations.Attributes3 | src/operation.cpp:130-132 | `asset_issue`, `asset_publish_feed`, `miner_create`: each gives the content of an operation of its own type and None for any other |
| Operations.Attributes6 | src/operation.cpp:133-135 | `miner_update`, `update_global_parameters`, `proposal_create`: each gives the content of an operation of its own type and None for any other |
| Operations.Attributes9 | src/operation.cpp:136-138 | `proposal_update`, `proposal_delete`, `withdraw_permission_create`: each gives the content of an operation of its own type and None for any other |
| Operations.Attributes12 | src/operation.cpp:139-141 | `withdraw_permission_update`, `withdraw_permission_claim`, `withdraw_permission_delete`: each gives the content of an operation of its own type and None for any other |
| Operations.Attributes15 | src/operation.cpp:142-144 | `vesting_balance_create`, `vesting_balance_withdraw`, `custom`: each gives the content of an operation of its own type and None for any other |
| Operations.Attributes18 | src/operation.cpp:145-147 | `assert`, `content_submit`, `request_to_buy`: each gives the content of an operation of its own type and None for any other |
| Operations.Attributes21 | src/operation.cpp:148-150 | `leave_rating_and_comment`, `proof_of_custody`, `deliver_keys`: each gives the content of an operation of its own type and None for any other |
| Operations.Attributes24 | src/operation.cpp:151-153 | `subscribe_to_author`, `subscribe_by_author`, `automatic_renewal_of_subscription`: each gives the content of an operation of its own type and None for any other |
| Operations.Attributes27 | src/operation.cpp:154-156 | `report_statistics`, `set_publishing_manager`, `set_publishing_right`: each gives the content of an operation of its own type and None for any other |
| Operations.Attributes30 | src/operation.cpp:157-159 | `content_cancellation`, `asset_fund_pools`, `asset_reserve`: each gives the content of an operation of its own type and None for any other |
| Operations.Attributes33 | src/operation.cpp:160-162 | `asset_claim_fees`, `update_user_issued_asset`, `update_monitored_asset`: each gives the content of an operation of its own type and None for any other |
| Operations.Attributes36 | src/operation.cpp:163-165 | `ready_to_publish`, `transfer`, `update_user_issued_asset_advanced`: each gives the content of an operation of its own type and None for any other |
| Operations.Attributes39 | src/operation.cpp:166-168 | `non_fungible_token_create`, `non_fungible_token_update`, `non_fungible_token_issue`: each gives the content of an operation of its own type and None for any other |
| Operations.Attributes42 | src/operation.cpp:169-170 | `non_fungible_token_transfer`, `non_fungible_token_data_update`: each gives the content of an operation of its own type and None for any other |
| Proposals.ProposalObject.EncodeProposedOperations | src/operation.cpp:7-13 | the proposed operations in order |
| Proposals.ProposalObject.DecodeProposedOperations | src/operation.cpp:15-23 | position by position, also when an element is not an operation: the new length, converted above the throwing position, old or default at and below it; other fields untouched |
| Proposals.AttributesOfOperation | src/operation.cpp:127-170 | the accessors used in rebuilding are the registered attributes, one of which answers |
| Proposals.ProposalAccessor | src/operation.cpp:135 | the accessor answers exactly for proposals, and what an accessor returns wraps to the operation |
| Proposals.StaleNeverSurvives | src/operation.cpp:15-23 | assigning all proposed operations leaves nothing of earlier ones |
| Proposals.RebuildIsIdentity | src/operation.cpp:7-23 | taking an operation apart and rebuilding it gives the same operation at any nesting depth |

## Left out

- The wallet's network and wallet calls (src/module.cpp:92-217): they go into the DCore wallet library; batched lookups take an abstract query that answers identifier by identifier.
- The containers' own algorithms (binary search, node allocation): library code behind the interface stated above.
- Fees, vesting, signing, memo encryption, key derivation, validation and digests: only their names are registered in this repository.
- A default-constructed operation is one fixed value, BLANK; which one it is depends on the chain library, and nothing proved depends on it.
- `fc::array<T, N>()` is taken to value-initialise to zeros; its constructor belongs to the fc library.
- Name/variant pairs of NFT data (src/operation.cpp:765-767) cross the list accessors as wrapped objects, so ListRoundTrip applies to them with the identity; their `value` attribute is plain field exposure.
- `proposed_ops` elements are modelled with their `op` field only, the one these functions name.
- CPython internals: UTF-8 validity, reference counts and the fate of a pending error; strings are taken as valid, and a pending error is a flag.
- Freshness of wrapped key objects: identity comparison is modelled by key classes, so converted keys of a map are as distinct as `canon` says.
- memo_converter, safe-integer and smart-reference accessors, `object_repr`, `object_hash`, paths, logging: one-line delegations.

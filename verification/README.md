# Fitness studio admin: stores, sales figures and form lists

This project models the logic of a fitness-studio admin dashboard written as
React components in TypeScript. Each handler is treated as a pure function
from the old list, plus its argument, to the new list.

- **Package store** (`Packages`). The training-package record and the
  filtered view behind the search box and the category and status
  drop-downs. Delete by id. Save, which either merges a payload over the
  selected package or creates a package with id `Math.max(...ids) + 1` and
  `enrolled: 0`.
- **Trainer store** (`Trainers`). The same handlers for trainers. The search
  covers name, specialty and email. Create forces `rating: 0` and
  `clients: 0`.
- **Sales screen** (`Sales`). The status and trainer filter, the revenue and
  commission sums over completed sales, the per-status counts, the refund
  rate and the trainer drop-down's options. All these figures take the whole
  list of sales and no filter.
- **Forms** (`FormLists`, `PackageForm`, `TrainerForm`). The trim-and-append
  and remove-at-index list editors for equipment and certifications. The
  defaults, and the prefill from the record being edited. The payload each
  form hands to its store.
- **Generic pieces** (`Seqs`, `Text`, `Ids`, `Shared`). Filter, map, sum,
  removal by index and `[...new Set(xs)]` over sequences. ASCII
  `toLowerCase`, `includes` and `trim`. The `Math.max + 1` id rule. The
  shared `Option`/`Result` types, the `active`/`inactive` status and the
  `'all'` drop-down sentinel.

Modelling choices:

- A `Partial<T>` payload is a datatype of `Option` fields, where `Some`
  means the key is present. The spread `{ ...p, ...patch }` is a per-field
  `GetOr`.
- Money (`price`, `amount`, `commission`, `hourlyRate`) is integer cents.
  The trainer `rating` is a `real`.
- The refund rate is an `Option<real>`. `None` stands for the `NaN` of
  `0 / 0` on an empty list.
- `Math.max()` of no ids is `-Infinity`, so creating on an empty list stores
  a record whose id is `-Infinity`, and every later create gives that same
  id again. The model reports that case as the error `NoIntegerId` instead.
- The source casts the created record with `as` without checking that the
  payload supplies every field. The model reports `IncompletePayload`
  instead of storing a malformed record. Both forms always send a complete
  payload (`PackageForm.CreateFromForm`, `TrainerForm.CreateFromForm`).

Behaviour of the code worth knowing:

- Deleting or updating an id that no record has is a silent no-op; there is
  no not-found error.
- Creating on an empty list never gives id 1: the id is `-Infinity`, which
  the model reports as `NoIntegerId`.
- Nothing validates field values. The starting packages already hold 31
  enrolled against a capacity of 25.
- The refund rate of no sales is `NaN` (`0 / 0`), not 0.
- Deleting the package with the largest id lets a later create reuse that
  id. The very next create reuses it when the runner-up id is one less
  (`Packages.DeletedMaxIdIsReused`); otherwise it takes the runner-up id
  plus 1, or `-Infinity` when no package is left.

## Model

| member | source | states |
|---|---|---|
| Shared.FilterAcceptsSemantics | src/components/PackageManagement.tsx:98-99 | a drop-down on `'all'` accepts every value; set to anything else it accepts exactly the value it names |
| Shared.StatusFilterSelects | src/components/PackageManagement.tsx:99 | a status drop-down set to one status's name accepts a record exactly when the record has that status |
| Seqs.Filter | src/components/PackageManagement.tsx:94-101 | `filter` never lengthens the list and keeps exactly the elements satisfying the predicate |
| Seqs.FilterMultiplicity | src/components/PackageManagement.tsx:94-101 | `filter` keeps each accepted element with its full multiplicity and drops every other one |
| Seqs.FilterIsSubsequence | src/components/PackageManagement.tsx:94-101 | `filter` only deletes elements and never reorders them |
| Seqs.FilterKeepsAll | src/components/PackageManagement.tsx:94-101 | a filter whose predicate accepts every element returns the list unchanged |
| Seqs.FilterCongruent | src/components/PackageManagement.tsx:94-101 | two predicates that agree on every element select the same list |
| Seqs.FilterSnoc | src/components/SalesTracking.tsx:99-101 | filtering a list extended at the end adds that element exactly when it passes |
| Seqs.SubsequenceMembers | src/components/PackageManagement.tsx:114 | every element of an order-preserving subsequence is an element of the whole |
| Seqs.SubsequenceKeepsKeysDistinct | src/components/PackageManagement.tsx:114 | deleting elements never makes two remaining ids collide |
| Seqs.Map | src/components/PackageManagement.tsx:119-121 | `map` keeps the length and applies the function at each position |
| Seqs.RemoveAt | src/components/PackageForm.tsx:104 | `filter((_, j) => j !== i)` drops exactly position `i` and keeps the rest in order; an index outside the list removes nothing |
| Seqs.FirstIndex | src/components/SalesTracking.tsx:103 | the position returned holds the element, and no earlier position does |
| Seqs.FirstIndexInPrefix | src/components/SalesTracking.tsx:103 | an element of a prefix has the same first position in the prefix as in the whole list |
| Seqs.Distinct | src/components/SalesTracking.tsx:103 | `[...new Set(xs)]` has no duplicates and holds exactly the elements of `xs` |
| Seqs.DistinctOrder | src/components/SalesTracking.tsx:103 | the distinct elements come in the order of their first occurrence, as a `Set` iterates in insertion order |
| Seqs.DistinctSnoc | src/components/SalesTracking.tsx:103 | extending the input at the end extends the distinct elements by that element exactly when it is new |
| Seqs.DistinctOfNoDuplicates | src/components/SalesTracking.tsx:103 | a list without duplicates is its own list of distinct elements |
| Seqs.DistinctOrderStep | src/components/SalesTracking.tsx:103 | first occurrences in a prefix stay first occurrences in the whole; an element new at the end occurs first there |
| Text.LowerChar | src/components/PackageManagement.tsx:95 | `toLowerCase` on one character maps capitals to small letters and keeps every other character; the result is never a capital |
| Text.Lower | src/components/PackageManagement.tsx:95-97 | `toLowerCase` keeps the length, lowercases position by position and leaves no capital |
| Text.LowerIdempotent | src/components/PackageManagement.tsx:95-97 | lowercasing twice is lowercasing once |
| Text.Contains | src/components/PackageManagement.tsx:95-97 | `includes` holds exactly when the needle occurs at some position of the haystack |
| Text.ContainsStep | src/components/PackageManagement.tsx:95-97 | an occurrence after the first position is an occurrence in the tail, one position earlier |
| Text.MissingCharNotContained | src/components/PackageManagement.tsx:95-97 | a needle holding a character the haystack lacks is not found |
| Text.SkipBlanks | src/components/PackageForm.tsx:92 | the position found is the first non-whitespace one at or after the start, with only whitespace before it |
| Text.SkipBlanksBack | src/components/PackageForm.tsx:92 | the position found follows the last non-whitespace character before the end, with only whitespace after it |
| Text.Trim | src/components/PackageForm.tsx:92-95 | `trim` gives a string with no whitespace at either end; it occurs in the input with only whitespace before and after it; it is empty exactly when the input is all whitespace |
| Text.TrimFacts | src/components/PackageForm.tsx:92-95 | the text between the leading and the trailing whitespace is trimmed, sits in the input at its start and is empty exactly when the input is blank |
| Text.TrimOfTrimmed | src/components/PackageForm.tsx:92-95 | trimming an already trimmed string changes nothing |
| Ids.Max | src/components/PackageManagement.tsx:125 | `Math.max(...ids)` is an integer exactly when there are ids; it is then one of them and no smaller than any |
| Ids.NextId | src/components/PackageManagement.tsx:125 | `Math.max(...ids) + 1` exists exactly for a non-empty list; it is one more than an existing id, exceeds every id and so differs from all of them |
| Packages.Merge | src/components/PackageManagement.tsx:120 | `{ ...pkg, ...packageData }` gives back the package unchanged exactly when every key the payload carries already holds the package's value |
| Packages.MergeIdempotent | src/components/PackageManagement.tsx:120 | spreading the same payload over the result a second time changes nothing |
| Packages.View | src/components/PackageManagement.tsx:94-101 | a package is shown exactly when the lowercased term occurs in its lowercased name, trainer or category and both drop-downs accept it; the view keeps list order and multiplicities |
| Packages.ViewUnfiltered | src/components/PackageManagement.tsx:94-101 | an empty term with both drop-downs on `'all'` shows the whole list |
| Packages.ViewIgnoresCase | src/components/PackageManagement.tsx:95-97 | two terms that lowercase alike show the same packages |
| Packages.ViewByStatus | src/components/PackageManagement.tsx:99 | the status drop-down alone shows exactly the packages with that status |
| Packages.ViewByCategory | src/components/PackageManagement.tsx:98 | the category drop-down alone shows exactly the packages of that category |
| Packages.Delete | src/components/PackageManagement.tsx:113-115 | delete removes every package with the id, keeps all others with their multiplicities and in order |
| Packages.DeleteAbsent | src/components/PackageManagement.tsx:113-115 | deleting an id no package has leaves the list as it was |
| Packages.DeleteKeepsIdsDistinct | src/components/PackageManagement.tsx:113-115 | deleting keeps ids pairwise distinct |
| Packages.Update | src/components/PackageManagement.tsx:119-121 | update keeps the length, merges the payload over each package with the id and leaves every other package unchanged |
| Packages.UpdateIdempotent | src/components/PackageManagement.tsx:119-121 | applying the same update twice gives the list that applying it once gives |
| Packages.UpdateKeepsIdsDistinct | src/components/PackageManagement.tsx:119-121 | an update whose payload does not change the id keeps ids pairwise distinct |
| Packages.UpdateAbsent | src/components/PackageManagement.tsx:119-121 | updating an id no package has leaves the list as it was |
| Packages.Create | src/components/PackageManagement.tsx:123-128 | create fails with no integer id exactly on an empty list; otherwise it appends exactly one package after the unchanged list, whose id is one more than an existing id and above all of them, whose `enrolled` is 0, and which carries every other payload field |
| Packages.CreateKeepsIdsDistinct | src/components/PackageManagement.tsx:123-128 | creating keeps ids pairwise distinct |
| Packages.Save | src/components/PackageManagement.tsx:117-131 | saving with a package selected is the update of that package's id, which always succeeds and keeps the length; without one it is the create, which succeeds exactly on a non-empty list with a complete payload |
| Packages.SaveKeepsIdsDistinct | src/components/PackageManagement.tsx:117-131 | saving a payload without an `id` key keeps ids pairwise distinct |
| Packages.DeletedMaxIdIsReused | src/components/PackageManagement.tsx:113-128 | after deleting the package with the largest id, the next package created gets that same id when the runner-up id is one less |
| Packages.SeedFacts | src/components/PackageManagement.tsx:23-84 | the starting packages include one with more enrolled than capacity, have distinct ids, and the next id is 5 |
| Packages.SearchScenario | src/components/PackageManagement.tsx:94-101 | searching "YOGA" shows the yoga package of the starting data |
| Packages.YogaFindsYoga | src/components/PackageManagement.tsx:95 | "YOGA" lowercased occurs in the yoga package's lowercased name |
| Trainers.Merge | src/components/TrainerManagement.tsx:111 | `{ ...trainer, ...trainerData }` gives back the trainer unchanged exactly when every key the payload carries already holds the trainer's value |
| Trainers.MergeIdempotent | src/components/TrainerManagement.tsx:111 | spreading the same payload over the result a second time changes nothing |
| Trainers.View | src/components/TrainerManagement.tsx:86-92 | a trainer is shown exactly when the lowercased term occurs in its lowercased name, specialty or email and the status drop-down accepts it; the view keeps list order and multiplicities |
| Trainers.ViewUnfiltered | src/components/TrainerManagement.tsx:86-92 | an empty term with the drop-down on `'all'` shows the whole list |
| Trainers.ViewIgnoresCase | src/components/TrainerManagement.tsx:87-89 | two terms that lowercase alike show the same trainers |
| Trainers.ViewByStatus | src/components/TrainerManagement.tsx:90 | the status drop-down alone shows exactly the trainers with that status |
| Trainers.Delete | src/components/TrainerManagement.tsx:104-106 | delete removes every trainer with the id, keeps all others with their multiplicities and in order |
| Trainers.DeleteAbsent | src/components/TrainerManagement.tsx:104-106 | deleting an id no trainer has leaves the list as it was |
| Trainers.DeleteKeepsIdsDistinct | src/components/TrainerManagement.tsx:104-106 | deleting keeps ids pairwise distinct |
| Trainers.Update | src/components/TrainerManagement.tsx:110-112 | update keeps the length, merges the payload over each trainer with the id and leaves every other trainer unchanged |
| Trainers.UpdateIdempotent | src/components/TrainerManagement.tsx:110-112 | applying the same update twice gives the list that applying it once gives |
| Trainers.UpdateKeepsIdsDistinct | src/components/TrainerManagement.tsx:110-112 | an update whose payload does not change the id keeps ids pairwise distinct |
| Trainers.UpdateAbsent | src/components/TrainerManagement.tsx:110-112 | updating an id no trainer has leaves the list as it was |
| Trainers.Create | src/components/TrainerManagement.tsx:114-120 | create fails with no integer id exactly on an empty list; otherwise it appends exactly one trainer after the unchanged list, whose id is one more than an existing id and above all of them, whose `rating` and `clients` are 0, and which carries every other payload field |
| Trainers.CreateKeepsIdsDistinct | src/components/TrainerManagement.tsx:114-120 | creating keeps ids pairwise distinct |
| Trainers.Save | src/components/TrainerManagement.tsx:108-123 | saving with a trainer selected is the update of that trainer's id, which always succeeds and keeps the length; without one it is the create, which succeeds exactly on a non-empty list with a complete payload |
| Trainers.SaveKeepsIdsDistinct | src/components/TrainerManagement.tsx:108-123 | saving a payload without an `id` key keeps ids pairwise distinct |
| Sales.FilteredSales | src/components/SalesTracking.tsx:85-89 | a sale is listed exactly when the status and the trainer drop-downs accept it; the list keeps order and multiplicities |
| Sales.DateRangeIgnored | src/components/SalesTracking.tsx:83-89 | the date-range drop-down has no effect on the listed sales |
| Sales.FilterByStatus | src/components/SalesTracking.tsx:86 | the status drop-down alone lists exactly the sales with that status |
| Sales.CompletedSumStep | src/components/SalesTracking.tsx:91-97 | one more sale adds its value to the sum over completed sales exactly when it is completed |
| Sales.CompletedSumAppend | src/components/SalesTracking.tsx:91-97 | a sale appended at the end adds its value to the sum over completed sales exactly when it is completed |
| Sales.TotalRevenue | src/components/SalesTracking.tsx:91-93 | the `reduce` gives the sum of the amounts of the completed sales; pending and refunded sales add nothing |
| Sales.TotalCommission | src/components/SalesTracking.tsx:95-97 | the `reduce` gives the sum of the commissions of the completed sales only |
| Sales.CountWithStatus | src/components/SalesTracking.tsx:99-101 | the count for a status is the number of positions in the list holding a sale with that status |
| Sales.FilterCountsPositions | src/components/SalesTracking.tsx:99-101 | filtering by status keeps exactly one sale per position holding that status |
| Sales.StatusCountsPartition | src/components/SalesTracking.tsx:99-101 | the completed, pending and refunded counts add up to the number of sales |
| Sales.Percent | src/components/SalesTracking.tsx:172 | `(part / whole) * 100` is undefined exactly for a zero whole; otherwise it is the percentage that `part` is of `whole`, between 0 and 100 |
| Sales.RefundRate | src/components/SalesTracking.tsx:172 | the refund rate is undefined exactly with no sales; otherwise it is the percentage of sales that are refunded, between 0 and 100 |
| Sales.PercentOfWhole | src/components/SalesTracking.tsx:172 | the share scaled to a percentage lies between 0 and 100 and, times the whole, gives 100 times the part |
| Sales.Trainers | src/components/SalesTracking.tsx:103 | the trainer options name each trainer of some sale, once, and in order of first appearance |
| Sales.SeedRevenue | src/components/SalesTracking.tsx:18-93 | on the starting sales the revenue is 847.00 and the commission 169.40 |
| Sales.CountAppend | src/components/SalesTracking.tsx:99-101 | one more sale adds one to the count of its own status only |
| Sales.SeedCount | src/components/SalesTracking.tsx:18-101 | the starting sales hold three completed, one pending and one refunded sale |
| Sales.SeedFigures | src/components/SalesTracking.tsx:18-172 | on the starting sales the counts are 3, 1 and 1 and the refund rate is 20% |
| Sales.SeedTrainers | src/components/SalesTracking.tsx:18-103 | on the starting sales the trainer options are the four trainers in order of their first sale, the one with two sales once |
| FormLists.Add | src/components/PackageForm.tsx:91-99 | a blank draft changes nothing, the draft included; otherwise the trimmed draft is appended after the unchanged list and the draft is cleared; the new entry is non-empty, trimmed and taken from the draft |
| FormLists.AddKeepsClean | src/components/PackageForm.tsx:91-99 | adding keeps every entry non-empty and trimmed |
| FormLists.AddAcceptsDuplicate | src/components/PackageForm.tsx:91-99 | a draft whose trimmed text is already in the list is appended again, not rejected |
| FormLists.Remove | src/components/PackageForm.tsx:101-106 | remove drops exactly the entry at the index and keeps the others in order; an index outside the list removes nothing; the draft is untouched |
| FormLists.RemoveKeepsClean | src/components/PackageForm.tsx:101-106 | removing keeps every entry non-empty and trimmed |
| PackageForm.Prefill | src/components/PackageForm.tsx:60-76 | with a package given, every form field equals that package's field; without one the form holds the defaults |
| PackageForm.Payload | src/components/PackageForm.tsx:26-38 | the payload never carries `id` or `enrolled`, carries every other package field, and spreading it over any package sets each of those fields to the form's value and keeps `id` and `enrolled` |
| PackageForm.AddEquipment | src/components/PackageForm.tsx:91-99 | `addEquipment` appends the trimmed draft and clears it when the draft is not blank, changes nothing otherwise, and moves no other field |
| PackageForm.RemoveEquipment | src/components/PackageForm.tsx:101-106 | `removeEquipment` drops exactly the entry at the index, ignores an index outside the list, and moves no other field nor the draft |
| PackageForm.EditKeepsIdAndEnrolled | src/components/PackageForm.tsx:78-81 | saving the form over a package never changes any package's id or enrolled count |
| PackageForm.UnchangedEditIsIdentity | src/components/PackageForm.tsx:60-81 | opening a package and submitting without edits merges back to the same package |
| PackageForm.UnchangedSaveKeepsList | src/components/PackageForm.tsx:60-81 | with distinct ids, saving an untouched edit form leaves the whole list as it was |
| PackageForm.CreateFromForm | src/components/PackageForm.tsx:78-81 | creating from the form succeeds exactly on a non-empty list |
| TrainerForm.Prefill | src/components/TrainerForm.tsx:39-53 | with a trainer given, every form field equals that trainer's field; without one the form holds the defaults |
| TrainerForm.Payload | src/components/TrainerForm.tsx:25-35 | the payload never carries `id`, `rating` or `clients`, carries every other trainer field, and spreading it over any trainer sets each of those fields to the form's value and keeps `id`, `rating` and `clients` |
| TrainerForm.AddCertification | src/components/TrainerForm.tsx:68-76 | `addCertification` appends the trimmed draft and clears it when the draft is not blank, changes nothing otherwise, and moves no other field |
| TrainerForm.RemoveCertification | src/components/TrainerForm.tsx:78-83 | `removeCertification` drops exactly the entry at the index, ignores an index outside the list, and moves no other field nor the draft |
| TrainerForm.EditKeepsIdRatingAndClients | src/components/TrainerForm.tsx:55-58 | saving the form over a trainer never changes any trainer's id, rating or clients |
| TrainerForm.UnchangedEditIsIdentity | src/components/TrainerForm.tsx:39-58 | opening a trainer and submitting without edits merges back to the same trainer |
| TrainerForm.UnchangedSaveKeepsList | src/components/TrainerForm.tsx:39-58 | with distinct ids, saving an untouched edit form leaves the whole list as it was |
| TrainerForm.CreateFromForm | src/components/TrainerForm.tsx:55-58 | creating from the form succeeds exactly on a non-empty list |

## Left out

- Rendering: JSX, styling classes, icons, modals and the colour helpers (`getDifficultyColor`, `getStatusColor`). They are presentation only.
- `Analytics.tsx`, `Dashboard.tsx`, `RecentActivity.tsx` and the data of `RevenueChart.tsx` hold literal mock data and compute nothing. `App.tsx` and `Sidebar.tsx` are navigation state. None of these is part of this model.
- `handleChange` of both forms (`PackageForm.tsx:83-89`, `TrainerForm.tsx:60-66`): the `Number(value)` string coercion is not modelled. A form's fields are taken as already typed values.
- Floating point and display formatting are not modelled: `toFixed`, `toLocaleString`, the bar-width percentages and float money. Money is integer cents and the refund rate is an exact `real`.
- Unicode: `toLowerCase` and `trim` are modelled on ASCII only. Lowercasing maps `A`–`Z`. The whitespace set is tab, line feed, vertical tab, form feed, carriage return and space.
- HTML `required` and `min` attributes are enforced by the browser, not by the stores. No store invariant assumes them.
- React scheduling (`useState`, `useEffect`, re-render timing) is not modelled. `Prefill` models the effect run when the form opens. If the `Modal` component keeps the form mounted while closed, re-opening it with no record keeps the previous fields, since the effect resets them only when a record is given; `Modal` is not part of this model, so this case is not covered.
- Sales figures and filters: revenue, commission, counts and refund rate take only the list of sales. That they ignore the filters holds by their signatures, so no lemma states it.
- Packages.SeedFacts: the starting package descriptions are left empty. No property depends on their text.
- Packages.DeletedMaxIdIsReused: the id-reuse consequence is stated for packages only. The trainer store allocates ids by the same `Ids.NextId` rule.
- Packages.Create, Trainers.Create: a payload missing a field the record needs is reported as `IncompletePayload`. The source stores a record with `undefined` fields instead. Creating on an empty list is reported as `NoIntegerId`, whereas the source stores a record with id `-Infinity`, and every further create stores another record with that same id; `CreateKeepsIdsDistinct` does not cover a list in that state.
- Ids.NextId: ids are exact unbounded integers. The source's ids are JavaScript doubles, so `Math.max(...ids) + 1` exceeds every id only while the largest id is below 2^53; from there on a create can repeat an id, which the model does not show. `Math.max(...ids)` also passes every id as a separate argument, so a list longer than the engine's argument limit makes it throw `RangeError` and the create is lost with the list unchanged; the model allocates an id for a list of any length.

# Editing JSON documents, and locating a receiver

A verification model, in Dafny, of two parts of the location management server:

- the document-editing core of the bundled JSON library (`lmf-server/src/nlohmann`):
  JSON Pointer (RFC 6901), JSON Patch and `diff` (RFC 6902), JSON Merge Patch
  (RFC 7396), `flatten`/`unflatten`, the comparison operators, the destruction of
  nested values, and `ordered_map`;
- the trilateration of `lmf-server/src/locator.cpp`: a weighted linear least-squares
  phase and a damped Gauss-Newton loop, kept in an object between calls.

`dafny verify dfyconfig.toml` checks the whole project.

## How it is modelled

A document is a value of the datatype `Values.Json`. Integers have their 64-bit range,
conversions between them wrap as the casts do, and conversion to `double` rounds to
nearest, ties to even. A `double` is NaN, an infinity or a real; the two zeros are one
value, since they compare equal. Objects are those of the default `std::map`: a finite map
whose iteration order is the byte order of its keys (`Text.SortedKeys`). Strings are
sequences of bytes, written as characters.

Code that edits step by step is imperative here as well, and each method is proved against
a specification about which the theorems are stated:

| part | loops and state | specification | theorems |
|---|---|---|---|
| escaping | `Escaping.ReplaceSubstring` | `Rewrite`, `Escape`, `Unescape` | `Escaping` |
| pointers | `Pointers.Split`, the resolver loops of `Resolution` | `Parse`, `Trace`, `At`, `Contains` | `Pointers`, `Resolution`, `Creation` |
| patch | class `Patch.Document` | `Exec`, `Run`, `RunPatch`; `LeftBehind`, `PatchLeaves` | `Patch`, `PatchMeaning`, `Locality`, `PatchLaws`, `PatchFailures` |
| diff | `DiffScript` | `Diffing.DiffOps` with `Patch.EncodeAll` | `Diffing` |
| merge patch | `MergePatch.MergePatch` | `Merge` | `MergePatch` |
| flatten | `Flattening` | `Flat`, `Unflatten` | `FlatMeaning`, `FlattenLaws`, `FlatDocuments` |
| comparison | none, as in the code | `Values.Equal`, `Ordering.Less`, `ThreeWayComparison.Compare` | `Values`, `Rounding`, `Ordering`, `OrderBreaks`, `ThreeWayComparison` |
| destruction | `Destruction.Destroy` | `Drain`, `Nested` | `Destruction` |
| ordered map | class `OrderedMaps.OrderedMap` | `Put`, `Overwrite`, `Drop`, `Cut` | `OrderedMaps` |
| locator | `Locator.TrilaterationNlls`, class `Locator.LocatorObject` | `Lls`, `Iterate`, `Answer` | `Trilateration`, `LinearPhase`, `Locator` |

A C++ reference into a document is a `Resolution.Cursor`: the value it denotes, and the
trail of containers and slots above it. Writing through the reference is `Rebuild`. An
exception is an `Err` with the family and the id of the exception; methods that change
state report it as a `Status`, and their contracts also say what they leave behind.

`Values.FitsSizeType` says that every array has fewer than 2^64 - 1 elements, which holds
for every document in memory, since a larger one could not be indexed by `size_type`.

Arithmetic in the locator is over exact reals. `arma::solve` is that of the Armadillo 11.2.0
that the repository ships: a regular system has its solution; a singular one gets the
least-squares solution of least norm, unless the solver for that fails to converge. What
depends on `double` or on that solver is a parameter, `Trilateration.Arithmetic`: the square
root, on which singular systems the solver fails, in which iterations an update leaves the
finite range, and whether solving a system that contains NaN throws or yields a step that
is not finite. The theorems hold for every choice; those about distances ask of the square
root only that it is one.

## What the code does, against its documentation

- `unflatten(flatten(v))` does not restore every document. An object whose first leaf, in
  byte order, is below a key "0" comes back as an array or makes `unflatten` throw. The
  exact condition is `FlattenLaws.Safe`; the round trip holds if and only if it is met and
  no value is discarded (`FlattenLaws.FlattenRoundTrip`). Nor does `flatten` give back every
  flat document after `unflatten`; `FlatDocuments.UnflattenFlatten` says which.
- A remove below a value that is no container succeeds and does nothing
  (json.hpp:4736-4754), where section 4.2 of RFC 6902 demands an error
  (`PatchLaws.RemoveSucceeds`).
- A move of a value into one of its own children, which section 4.4 of RFC 6902 forbids, is
  rejected as such only for a member of the root and for the last element of a root array.
  A deeper member ends up inside containers created in its own place, and an array element,
  also at the root, inside its next sibling. `PatchLaws.MoveBelowItselfSucceeds` says
  exactly when such a move is accepted.
- An add below a value that is no container is said to be impossible (json.hpp:4715). It
  reaches `JSON_ASSERT(false)` for every existing parent that is neither null nor a
  container (`PatchLaws.AddAsserts`, `PatchLaws.AddBelowString`); the model returns
  `AssertionFailed`.
- The check that the first token of an add exists (json.hpp:4671-4676) looks at the first
  token only: the same add can throw on a document and succeed below a prefix, exactly when
  `PatchLaws.AddBelowExactly` says. A prefixed script therefore acts on the child as a
  script without these checks (`Locality.RunBelowExactly`).
- `patch_inplace` is not atomic. `Patch.PatchLeaves` is the document a failing patch leaves
  behind, and `PatchFailures.LeftBehindUnchanged` says when an operation that throws leaves
  it as it was; a move that throws has usually lost its value (`PatchFailures.LostByMove`).
- `operator<` is a strict weak order on exact documents (`Ordering.StrictWeakOrder`), and
  every other document breaks one of its laws (`OrderBreaks.InexactBreaksOrder`). The
  server is built for C++20 (lmf-server/Dockerfile:22), where `<` is taken from `<=>`
  (json.hpp:3664-3675) instead. The two agree on all documents without NaN and discarded
  values (`ThreeWayComparison.SameLess`), so that the laws hold there as well; with NaN
  they can differ (`ThreeWayComparison.NaNMakesADifference`).
- The branch of `first_lls_init` for an empty estimate (locator.cpp:47-50) cannot be
  reached, because the estimate is never empty. The other branch copies the three-entry
  estimate of a new locator into the start, with which no later call succeeds
  (`Locator.FailedInitIsFatal`). Anchors on one line do not get there: their singular
  system has an approximate answer, on a line through the origin
  (`LinearPhase.CollinearAnswer`).

## Model

| member | source | states |
|---|---|---|
| `Diffing.RoundTrip` | lmf-server/src/nlohmann/json.hpp:4905-5035 | for all documents a and b, applying the script of `diff(a, b)` to a never throws; the outcome is exactly `Patched(a, b)`, which matches b, and equals b under `operator==` exactly when b holds no NaN and no discarded value |
| `Diffing.RoundTripIsIdentity` | lmf-server/src/nlohmann/json.hpp:4905-5035 | where all numbers of both documents are of one type, the outcome is b itself, NaN and discarded values included: every text, byte, subtype, number, key and element |
| `Diffing.RoundTripOfExact` | lmf-server/src/nlohmann/json.hpp:4905-5035 | with mixed numbers that are exact, the outcome has the tree of b, with numbers of the same value, and the same subtypes of binary values |
| `Diffing.DiffAims` | lmf-server/src/nlohmann/json.hpp:4905-5035 | where the script edits: every operation is an add, remove or replace at a place such that neither it nor a place above it holds equal values; a replace puts in what b holds there, but never an array for an array or an object for an object; a remove is where b has nothing, an add where a has nothing |
| `Diffing.PatchedMatches` | lmf-server/src/nlohmann/json.hpp:4905-5035 | the outcome has the form of b at every place and compares equal wherever b is comparable |
| `Diffing.EmptyIffEqual` | lmf-server/src/nlohmann/json.hpp:4905-5035 | the script is empty exactly when `a == b`, also for documents with NaN or discarded values |
| `Diffing.DiffProduces` | lmf-server/src/nlohmann/json.hpp:4905-5035 | run on a, the operations succeed and leave exactly b with, in the places where the two compared equal, what a had there (`Patched`) |
| `Diffing.ArrayProduces` | lmf-server/src/nlohmann/json.hpp:4929-4971 | arrays: element edits, then removals from the back, then "/-" appends leave exactly this document, with no index ever out of range |
| `Diffing.ItemEditsRun` | lmf-server/src/nlohmann/json.hpp:4931-4939 | the first pass turns each common element into the patched one without moving any element |
| `Diffing.RemovalsRun` | lmf-server/src/nlohmann/json.hpp:4944-4956 | the reversed removals cut an array to exactly its first lo elements |
| `Diffing.AppendsRun` | lmf-server/src/nlohmann/json.hpp:4958-4968 | the appends extend an array by the remaining elements in order |
| `Diffing.ObjectProduces` | lmf-server/src/nlohmann/json.hpp:4973-5013 | objects: the member edits followed by the additions leave exactly the keys of b, each with the patched value or, where a lacks it, that of b |
| `Diffing.MemberEditsRun` | lmf-server/src/nlohmann/json.hpp:4975-4995 | in key order, members of a become the patched ones or disappear when b lacks them; nothing else changes |
| `Diffing.AdditionsRun` | lmf-server/src/nlohmann/json.hpp:4997-5010 | the second pass adds exactly the members that a lacks |
| `Diffing.DiffIsInner` | lmf-server/src/nlohmann/json.hpp:4905-5035 | a script adds and removes only strictly below the root (it may replace the root), so it can be run below any token |
| `Diffing.MatchesIsEqual` | lmf-server/src/nlohmann/json.hpp:3735-3745 | a match of b equals b exactly when b is comparable with itself |
| `Diffing.EncodeUnder` | lmf-server/src/nlohmann/json.hpp:4934-4985 | handing a longer path to the recursive call is the same as moving the child's operations below the escaped token |
| `DiffScript.Diff` | lmf-server/src/nlohmann/json.hpp:4905-5035 | the loops build the patch document that states the specified operations, in order, with every path below the given one |
| `DiffScript.DiffArrays` | lmf-server/src/nlohmann/json.hpp:4929-4971 | the array case: three loops over one running index |
| `DiffScript.RemoveRest` | lmf-server/src/nlohmann/json.hpp:4944-4956 | inserting every removal in front of the earlier ones at a fixed position puts them in descending index order |
| `DiffScript.AppendRest` | lmf-server/src/nlohmann/json.hpp:4958-4968 | one "/-" addition for each element of the target from the running index on, also when that index is already past the end |
| `DiffScript.DiffObjects` | lmf-server/src/nlohmann/json.hpp:4973-5013 | the object case: key order, escaped keys, recursion or removal |
| `DiffScript.AddMissing` | lmf-server/src/nlohmann/json.hpp:4997-5010 | an addition for each key of the target that the source lacks, in key order |
| `Patch.Document.OperationAdd` | lmf-server/src/nlohmann/json.hpp:4662-4726 | the lambda computes the specified add; when it throws, the document is exactly what `operator[]` has made of it on the way to the parent, or untouched if already the first token does not exist |
| `Patch.Document.OperationRemove` | lmf-server/src/nlohmann/json.hpp:4729-4755 | the lambda computes the specified remove; when it throws, the document is unchanged |
| `Patch.Document.Execute` | lmf-server/src/nlohmann/json.hpp:4806-4889 | each of the six operations does what the specification says, or throws its exception and leaves exactly the specified document behind: a move that cannot be completed has lost its source |
| `Patch.Document.PatchInplace` | lmf-server/src/nlohmann/json.hpp:4625-4891 | the loop runs the whole patch, or throws the exception of the first failing entry; in both cases the document it leaves is determined |
| `Patch.ApplyPatch` | lmf-server/src/nlohmann/json.hpp:4895-4900 | `patch` gives the patched copy or the exception |
| `Patch.Document.ReadAt` | lmf-server/src/nlohmann/json.hpp:4572-4589 | `at` with a pointer is checked lookup |
| `Patch.RunEncoded` | lmf-server/src/nlohmann/json.hpp:4760-4890 | a patch document runs as the operations it encodes: reading back op, path, from and value loses nothing |
| `PatchMeaning.EntryMeans` | lmf-server/src/nlohmann/json.hpp:4760-4889 | what an entry with a string `op` and a pointer `path` means: by each of the six names its operation with its `value` or `from`; 105 for any other name and for a missing `value` or a missing or ill-typed `from`, and the exception of the parse when `from` is no pointer |
| `PatchMeaning.EntryNeedsStrings` | lmf-server/src/nlohmann/json.hpp:4764-4803 | an entry whose `op` or `path` is missing or no string throws 105; one whose `path` is no pointer throws what the parse throws |
| `PatchMeaning.EntryIgnores` | lmf-server/src/nlohmann/json.hpp:4764-4889 | members that are not defined for the operation have no influence |
| `PatchMeaning.DocumentMeans` | lmf-server/src/nlohmann/json.hpp:4758-4779 | 104 for a patch that is no array, or whose first entry is no object; an empty patch does nothing |
| `PatchMeaning.AddMeans` | lmf-server/src/nlohmann/json.hpp:4662-4726 | an add at the root replaces the document; in an object or null it sets the member, also an existing one; in an array "-" appends and what is no index throws; where the first token does not exist the lookup's exception is thrown |
| `PatchMeaning.AddItemMeans` | lmf-server/src/nlohmann/json.hpp:4696-4711 | an add at index i of an array moves the elements from i on up, and throws 401 behind the end |
| `PatchMeaning.RemoveMeans` | lmf-server/src/nlohmann/json.hpp:4729-4755 | a remove takes out just the named member of its parent; 403 for a missing one, 405 for the root, the lookup's exception for a missing parent, and nothing happens below scalars |
| `PatchMeaning.RemoveItemMeans` | lmf-server/src/nlohmann/json.hpp:4749-4753 | a remove at index i of an array moves the elements behind i down, and throws 401 from the end on |
| `PatchMeaning.ReplaceMeans` | lmf-server/src/nlohmann/json.hpp:4818-4825 | a replace needs its target and replaces just that value |
| `PatchMeaning.MoveMeans` | lmf-server/src/nlohmann/json.hpp:4827-4842 | a move is a lookup, a remove and an add of what was found |
| `PatchMeaning.CopyMeans` | lmf-server/src/nlohmann/json.hpp:4844-4855 | a copy is a lookup and an add |
| `PatchMeaning.TestMeans` | lmf-server/src/nlohmann/json.hpp:4857-4880 | a test changes nothing; it throws 501 when the value differs or is out of range, and passes other exceptions on |
| `PatchMeaning.SetAtEverywhere` | lmf-server/src/nlohmann/detail/json_pointer.hpp:409-451 | after the replacement of a value: below its place the new value is found, above it the old container with just that change, and everywhere else what was there |
| `Patch.ReadEncoded` | lmf-server/src/nlohmann/json.hpp:4764-4803 | each encoded operation is read back as itself, through `get_op`, `get_value` and pointer parsing |
| `Patch.RunConcat` | lmf-server/src/nlohmann/json.hpp:4764-4890 | a concatenated script runs as its first part and then, if that succeeded, its second |
| `PatchFailures.FailsAt` | lmf-server/src/nlohmann/json.hpp:4764-4890 | a throwing patch has one entry at which it throws: the entries before it are applied in full, then comes what this entry leaves behind, and the exception is the entry's |
| `PatchFailures.StopsAt` | lmf-server/src/nlohmann/detail/json_pointer.hpp:341-400 | a walk of `operator[]` that throws at a token leaves exactly what it has made up to there, and an array in the place of a null that this token converted |
| `PatchFailures.ArrivesAt` | lmf-server/src/nlohmann/detail/json_pointer.hpp:341-400 | a walk that does not throw leaves what it has made |
| `PatchFailures.SucceedsEverywhere` | lmf-server/src/nlohmann/json.hpp:4764-4890 | when nothing throws, what is left behind is the result |
| `PatchFailures.LeftBehindUnchanged` | lmf-server/src/nlohmann/json.hpp:4662-4890 | exactly when a throwing operation leaves the document as it was: for an add or copy, when the first token does not exist, the parent resolves, or the walk stops in a value that refuses the token; for a move, when the source does not exist or is the root, or happens to be created anew |
| `PatchFailures.MoveLeavesUnchanged` | lmf-server/src/nlohmann/json.hpp:4827-4842 | a move that throws after removing its source leaves the document unchanged only if the way to its new place leads through the old one and what is created there equals the removed value, in an array also all elements behind it |
| `PatchFailures.GuardedFailure` | lmf-server/src/nlohmann/json.hpp:4764-4890 | a patch that begins with tests that hold and then throws leaves the document unchanged exactly in the cases of the operation that throws |
| `PatchFailures.LostByMove` | lmf-server/src/nlohmann/json.hpp:4827-4842 | a concrete move that throws and has lost its value |
| `PatchFailures.CreatedByAdd` | lmf-server/src/nlohmann/json.hpp:4662-4681 | a concrete add that throws and has created a member |
| `Patch.EditBelow` | lmf-server/src/nlohmann/detail/json_pointer.hpp:341-451 | an edit below a token is the edit of the child the token opens, put back into its slot |
| `Locality.RunBelowExactly` | lmf-server/src/nlohmann/json.hpp:4662-4890 | locality, for every script that adds and removes strictly below the root: run below an existing token it changes only the child there, whether or not it throws; its result, its exception and what it leaves are those of the script on the child alone, with adds that do not check their first token |
| `Locality.RunBelow` | lmf-server/src/nlohmann/json.hpp:4662-4890 | for scripts whose adds would pass that check in the child, result, exception and what is left are exactly those of the script on the child alone; every script that succeeds alone is one |
| `Locality.RunBelowDiffers` | lmf-server/src/nlohmann/json.hpp:4671-4676 | a script that throws on the child alone succeeds below the token exactly when it succeeds without the checks and one of its adds does not pass its check |
| `Locality.LeavesEncoded` | lmf-server/src/nlohmann/json.hpp:4764-4890 | what a script leaves behind is what the patch document that states it leaves |
| `Locality.ExecBelowExactly` | lmf-server/src/nlohmann/json.hpp:4662-4890 | the same exact account for one operation of each of the six kinds |
| `PatchLaws.ExecBelowDiffers` | lmf-server/src/nlohmann/json.hpp:4671-4676 | an operation that fails on the child alone succeeds below the token exactly when it is an add, copy or move that gets as far as its add, fails that check, and the missing containers can be created: a condition on child and tokens |
| `PatchLaws.ExecBelowSucceeds` | lmf-server/src/nlohmann/json.hpp:4662-4890 | which operations succeed below an existing token, read off the child and the tokens |
| `Locality.RemoveBelow` | lmf-server/src/nlohmann/json.hpp:4729-4755 | a prefixed remove succeeds, fails and acts exactly as the remove on the child |
| `PatchLaws.AddBelowExactly` | lmf-server/src/nlohmann/json.hpp:4671-4676 | a prefixed add agrees with the child's own add, exceptions included, except for the child's check that the first token exists; where that check fails, the prefixed add succeeds exactly when every missing container can be created, which is a condition on the child and the tokens |
| `PatchLaws.AddSucceeds` | lmf-server/src/nlohmann/json.hpp:4662-4726 | an add succeeds exactly when it is at the root, or its first token exists and, from the first token that does not resolve on, every all-digit token is an array index and the last value on the way accepts a new child |
| `PatchLaws.EditSucceeds` | lmf-server/src/nlohmann/detail/json_pointer.hpp:341-400 | the same for the way of `operator[]` to the parent alone, from any value |
| `PatchLaws.CreatableSucceeds` | lmf-server/src/nlohmann/detail/json_pointer.hpp:341-400 | below a null, all containers on the way can be created exactly when every all-digit token is an array index |
| `PatchLaws.AddAsserts` | lmf-server/src/nlohmann/json.hpp:4712-4724 | an add reaches `JSON_ASSERT(false)` exactly when its parent exists and is neither null nor a container |
| `PatchLaws.ExecAsserts` | lmf-server/src/nlohmann/json.hpp:4712-4724 | which operations reach the assertion: adds, copies whose source exists, and moves whose source exists and could be removed, with such a parent at that time |
| `PatchLaws.AddBelowString` | lmf-server/src/nlohmann/json.hpp:4715-4724 | a concrete add that reaches the assertion |
| `PatchLaws.PrefixHidesCheck` | lmf-server/src/nlohmann/json.hpp:4671-4676 | a concrete add that throws on a document and succeeds on it below a prefix |
| `PatchLaws.AddThenRemove` | lmf-server/src/nlohmann/json.hpp:4662-4755 | adding at a free place of an existing container puts the value there, and removing it restores the document |
| `PatchLaws.RemoveThenAdd` | lmf-server/src/nlohmann/json.hpp:4662-4755 | removing an existing value and adding it again restores the document |
| `PatchLaws.MoveToItself` | lmf-server/src/nlohmann/json.hpp:4827-4842 | moving an existing value to its own place changes nothing, except that the root cannot be moved |
| `PatchLaws.RemoveSucceeds` | lmf-server/src/nlohmann/json.hpp:4729-4755 | a remove succeeds exactly when its target is not the root and exists, or its parent exists and is no container; in the second case, against section 4.2 of RFC 6902, it silently does nothing; at the root it throws 405 |
| `PatchLaws.RemoveBelowPrimitive` | lmf-server/src/nlohmann/json.hpp:4736-4755 | a concrete remove of a missing target that succeeds |
| `PatchLaws.MoveBelowItself` | lmf-server/src/nlohmann/json.hpp:4827-4842 | moving an object member below itself, which section 4.4 of RFC 6902 forbids: at the root the first-token check throws; deeper, the value ends up in containers created in its own place |
| `PatchLaws.MoveBelowItselfInArray` | lmf-server/src/nlohmann/json.hpp:4827-4842 | moving an array element below itself puts it into the next sibling, also at the root; behind the last element containers are created, unless that is at the root |
| `PatchLaws.MoveBelowItselfSucceeds` | lmf-server/src/nlohmann/json.hpp:4827-4842 | for every existing source, exactly when such a move is accepted, in terms of the next sibling, the depth and the tokens; from the root it throws 405 |
| `PatchLaws.MoveIntoOwnChild` | lmf-server/src/nlohmann/json.hpp:4827-4842 | a value moved to its own child t: the next sibling takes it in, if there is one; at the root the move throws; otherwise the value becomes the object whose one member t holds what it was |
| `PatchLaws.MoveIntoSibling` | lmf-server/src/nlohmann/json.hpp:4827-4842 | a concrete accepted move of an element of the root array into itself |
| `PatchLaws.SetAtLaws` | lmf-server/src/nlohmann/detail/json_pointer.hpp:409-451 | writing through a resolved pointer is a lawful update: read back, last write wins, rewriting what is there changes nothing |
| `PatchLaws.EditIsSet` | lmf-server/src/nlohmann/detail/json_pointer.hpp:341-451 | where a pointer resolves, an edit through `at` and through `operator[]` both replace just that value |
| `MergePatch.MergePatch` | lmf-server/src/nlohmann/json.hpp:5047-5071 | the in-place loop in key order computes the function of section 2 of RFC 7396, which treats all members at once |
| `MergePatch.MergeSets` | lmf-server/src/nlohmann/json.hpp:5047-5071 | where a chain of keys leads, in the patch, to a value that is neither null nor an object, the result holds exactly that value there, whatever the target |
| `MergePatch.MergeDescends` | lmf-server/src/nlohmann/json.hpp:5047-5071 | where the patch holds an object, the result holds an object, whatever the target held |
| `MergePatch.MergeRemoves` | lmf-server/src/nlohmann/json.hpp:5062-5063 | where the patch holds null, the result has no member; a patch that is null gives null |
| `MergePatch.MergeKeeps` | lmf-server/src/nlohmann/json.hpp:5047-5071 | where the patch leads to an object that does not mention the next key, the result agrees with the target from there on |
| `MergePatch.UnmentionedIs` | lmf-server/src/nlohmann/json.hpp:5047-5071 | that condition in one formula: some beginning of the chain leads to an object of the patch without the next key |
| `MergePatch.MergeIdempotent` | lmf-server/src/nlohmann/json.hpp:5047-5071 | applying the same merge patch twice is applying it once |
| `MergePatch.MergeIsNullFree` | lmf-server/src/nlohmann/json.hpp:5047-5071 | merging into a document without null members (null among them) leaves no null member reachable through objects |
| `MergePatch.MergeOntoNull` | lmf-server/src/nlohmann/json.hpp:5047-5071 | a patch applied to null yields itself exactly when it has no null member reachable through objects |
| `Pointers.Split` | lmf-server/src/nlohmann/detail/json_pointer.hpp:653-711 | the scanning loop returns the tokens, or exception 107 or 108, of the recursive parse |
| `Pointers.CheckEscapes` | lmf-server/src/nlohmann/detail/json_pointer.hpp:689-703 | the inner loop accepts exactly the tokens in which every `~` starts `~0` or `~1` |
| `Pointers.ParsePrint` | lmf-server/src/nlohmann/detail/json_pointer.hpp:66-74 | a printed token list is parsed back unchanged, for every token list |
| `Pointers.PrintParse` | lmf-server/src/nlohmann/detail/json_pointer.hpp:653-711 | an accepted string is printed back unchanged |
| `Pointers.PrintInjective` | lmf-server/src/nlohmann/detail/json_pointer.hpp:66-74 | different token lists print differently |
| `Pointers.ToStringIsPrint` | lmf-server/src/nlohmann/detail/json_pointer.hpp:66-74 | the left fold of `to_string` prints the tokens one after the other |
| `Pointers.PrintAppend` | lmf-server/src/nlohmann/detail/json_pointer.hpp:66-74 | printing is a homomorphism: appended pointers print as appended strings |
| `Pointers.ParseAcceptsGrammar` | lmf-server/src/nlohmann/detail/json_pointer.hpp:653-711 | the accepted strings are exactly those of the grammar in section 3 of RFC 6901 |
| `Pointers.ParseThrows` | lmf-server/src/nlohmann/detail/json_pointer.hpp:653-711 | 107 exactly for the strings without a leading slash, 108 exactly for the others outside the grammar |
| `Pointers.ReferenceTokenIsWellEscaped` | lmf-server/src/nlohmann/detail/json_pointer.hpp:689-703 | the token grammar is: well escaped, and no slash |
| `Pointers.ArrayIndexIsDigits` | lmf-server/src/nlohmann/detail/json_pointer.hpp:201-236 | a token denotes index i exactly when it is the decimal numeral of i, without leading zero, and i is below the largest `size_type` |
| `Pointers.ArrayIndexThrows` | lmf-server/src/nlohmann/detail/json_pointer.hpp:201-236 | which exception for which token: 106 for a leading zero, 109 for a longer token that starts with no digit, 410 for the largest 64-bit numeral only, 404 for everything else that is no index |
| `Escaping.ReplaceSubstring` | lmf-server/src/nlohmann/detail/string_escape.hpp:32-41 | the in-place loop computes the leftmost non-overlapping rewriting and ends even when the replacement contains the search string |
| `Escaping.RewriteReplacesAll` | lmf-server/src/nlohmann/detail/string_escape.hpp:32-41 | what the rewriting is: the text is cut at the occurrences of the search string, found from left to right without overlap, and the pieces are joined with the replacement |
| `Escaping.Find` | lmf-server/src/nlohmann/detail/string_escape.hpp:36-39 | the first occurrence at or after a position, if there is one |
| `Escaping.EscapeToken` | lmf-server/src/nlohmann/detail/string_escape.hpp:51-56 | the two replacements escape every character on its own |
| `Escaping.EscapeMeans` | lmf-server/src/nlohmann/detail/string_escape.hpp:51-56 | tilde becomes `~0`, slash `~1`, and every other character stays |
| `Escaping.UnescapeMeans` | lmf-server/src/nlohmann/detail/string_escape.hpp:66-70 | `~0` is read as tilde, `~1` as slash, and every other character but a tilde as itself |
| `Escaping.UnescapeToken` | lmf-server/src/nlohmann/detail/string_escape.hpp:66-70 | `unescape` on any string is the composition of its two rewritings |
| `Escaping.EscapingIsInvertible` | lmf-server/src/nlohmann/detail/string_escape.hpp:50-70 | `unescape(escape(s)) == s` for all s; `escape(unescape(t)) == t` exactly for the well-escaped t without slash |
| `Escaping.UnescapeInTwoPasses` | lmf-server/src/nlohmann/detail/string_escape.hpp:66-70 | on well-escaped text, replacing `~1` first and `~0` second reads each escape sequence once, left to right |
| `Escaping.EscapeIsWellEscaped` | lmf-server/src/nlohmann/detail/string_escape.hpp:51-56 | escaped text is well escaped and has no slash |
| `Resolution.GetChecked` | lmf-server/src/nlohmann/detail/json_pointer.hpp:409-451 | the loop of `at` follows the specified steps and keeps the trail of containers it went through |
| `Resolution.GetUnchecked` | lmf-server/src/nlohmann/detail/json_pointer.hpp:341-400 | the loop of `operator[]`, with null conversion and growth, and exactly the document it leaves, whether it returns or throws |
| `Creation.WriteNull` | lmf-server/src/nlohmann/detail/json_pointer.hpp:356-360 | what writing through one token makes of null: an array for "-" and for the numeral of an index, filled with null up to it; an object for every other token that is not all digits; an exception for the rest |
| `Creation.WriteItem` | lmf-server/src/nlohmann/detail/json_pointer.hpp:366-388 | in an array: an existing element is replaced, otherwise the array grows with nulls until the index is its last |
| `Creation.WriteEnd` | lmf-server/src/nlohmann/detail/json_pointer.hpp:366-388 | "-" appends |
| `Creation.WriteMember` | lmf-server/src/nlohmann/detail/json_pointer.hpp:363-366 | in an object: the one member is set |
| `Creation.CreatesBelowNull` | lmf-server/src/nlohmann/detail/json_pointer.hpp:341-400 | for a whole pointer: the value that null becomes is exactly the nest of these arrays and objects around the new value |
| `Creation.UncheckedCreates` | lmf-server/src/nlohmann/detail/json_pointer.hpp:341-400 | in any document: `operator[]` changes exactly the last value that resolves, into which this nest is put |
| `Creation.AddCreates` | lmf-server/src/nlohmann/json.hpp:4662-4726 | an add with a missing parent creates the containers on the way and, at the end, an object with the one member that is added |
| `Resolution.LeftByUnchanged` | lmf-server/src/nlohmann/detail/json_pointer.hpp:341-400 | `operator[]`, returning or throwing, leaves the document as it was exactly when the pointer resolves or the first value in which it does not refuses the token |
| `Resolution.LeftByGrows` | lmf-server/src/nlohmann/detail/json_pointer.hpp:341-400 | in every case it has only grown the document, by nulls and containers of nulls |
| `Resolution.GetAndCreate` | lmf-server/src/nlohmann/detail/json_pointer.hpp:261-319 | the loop that `unflatten` uses |
| `Resolution.ContainsPointer` | lmf-server/src/nlohmann/detail/json_pointer.hpp:565-642 | the loop of `contains`, with its own syntax checks on array tokens |
| `Resolution.ContainsAgrees` | lmf-server/src/nlohmann/detail/json_pointer.hpp:516-642 | `contains` returns true exactly where `at` succeeds; it throws exactly when it meets, on an array, a token that is empty or too large a numeral, and `at` throws there too |
| `Resolution.UncheckedRefinesChecked` | lmf-server/src/nlohmann/detail/json_pointer.hpp:341-451 | where `at` succeeds, `operator[]` goes the same way to the same node and changes nothing |
| `Resolution.UncheckedThenChecked` | lmf-server/src/nlohmann/detail/json_pointer.hpp:341-451 | after a successful `operator[]`, whatever is written, `at` finds it at the pointer whose "-" tokens on arrays are replaced by the index they appended; other tokens are unchanged |
| `Resolution.UncheckedKeepsLeaves` | lmf-server/src/nlohmann/detail/json_pointer.hpp:341-400 | a pointer that resolved to a non-null primitive still resolves to it after any `operator[]` |
| `Resolution.TraceGrows` | lmf-server/src/nlohmann/detail/json_pointer.hpp:261-400 | the only effect of a successful creating resolver is growth: nulls are replaced by, and containers extended by, hollow values, that is nulls and containers of hollow values |
| `Resolution.AtIsTrace` | lmf-server/src/nlohmann/detail/json_pointer.hpp:409-451 | `at` fails with the same exception, or reaches the same node, as the walk with its trail |
| `Resolution.Grow` | lmf-server/src/nlohmann/json.hpp:2061-2103 | `operator[]` within an array leaves it alone; at index n past the end it makes the length n + 1 and fills the gap with null |
| `Flattening.Flatten` | lmf-server/src/nlohmann/detail/json_pointer.hpp:722-780 | the recursive function inserts exactly the specified entries into the result it is handed |
| `Flattening.FlattenDocument` | lmf-server/src/nlohmann/json.hpp:4600-4605 | `flatten` returns the object of all entries |
| `Flattening.FlatIsSound` | lmf-server/src/nlohmann/detail/json_pointer.hpp:722-780 | every entry is the printed pointer of a leaf with the leaf's value |
| `Flattening.FlatIsComplete` | lmf-server/src/nlohmann/detail/json_pointer.hpp:722-780 | every leaf has its entry, not overwritten by another |
| `FlatMeaning.FlatMeans` | lmf-server/src/nlohmann/detail/json_pointer.hpp:722-780 | the flattened document has null at the printed pointer of each empty container, the scalar at that of each scalar, and nothing at that of other containers or of what does not resolve |
| `FlatMeaning.FlatKeysArePointers` | lmf-server/src/nlohmann/detail/json_pointer.hpp:722-780 | all its keys are printed pointers |
| `FlatMeaning.LeafIs` | lmf-server/src/nlohmann/detail/json_pointer.hpp:730-777 | the leaves are the places of scalars and empty containers |
| `Flattening.UnflattenValue` | lmf-server/src/nlohmann/detail/json_pointer.hpp:794-819 | the loop over the keys in byte order computes the specified replay, with its exceptions |
| `FlatMeaning.UnflattenFails` | lmf-server/src/nlohmann/detail/json_pointer.hpp:794-819 | a failing replay has a first key, in byte order, at which it throws, and everything before it was replayed: 315 for a value that is not primitive, else the exception of the parse, else that of `get_and_create` |
| `FlatMeaning.UnflattenNeedsObject` | lmf-server/src/nlohmann/detail/json_pointer.hpp:794-799 | 314 exactly for a document that is no object |
| `FlatMeaning.CreateThrows` | lmf-server/src/nlohmann/detail/json_pointer.hpp:280-311 | `get_and_create` throws 313 below a scalar, and what the index throws within an array |
| `FlatMeaning.CreateFromNull` | lmf-server/src/nlohmann/detail/json_pointer.hpp:270-283 | null becomes an array for the token "0" and an object for any other |
| `FlattenLaws.FlattenRoundTrip` | lmf-server/src/nlohmann/detail/json_pointer.hpp:722-819 | `unflatten(flatten(v))` is v with empty containers replaced by null exactly when v holds no discarded value and no object in it has its first leaf, in byte order, below a key "0" |
| `FlattenLaws.FlattenUnflatten` | lmf-server/src/nlohmann/detail/json_pointer.hpp:722-819 | without discarded values, empty containers and keys "0" the round trip is exact |
| `FlattenLaws.ZeroKeyIsLost` | lmf-server/src/nlohmann/detail/json_pointer.hpp:270-277 | a concrete object with the key "0" that the round trip does not restore |
| `FlatDocuments.UnflattenFlatten` | lmf-server/src/nlohmann/detail/json_pointer.hpp:722-819 | the converse: `flatten(unflatten(m)) == m` for a flat object m exactly when its keys are pointers, its values primitive, no key is a prefix of another, and wherever the first key in byte order makes an array, the tokens there are the indices from 0 on without a gap (for results whose arrays are small enough to be indexed) |
| `FlatDocuments.AssembledLeaves` | lmf-server/src/nlohmann/detail/json_pointer.hpp:722-780 | the document put together from such keys has them as its leaves |
| `FlatDocuments.LeavesAreRegular` | lmf-server/src/nlohmann/detail/json_pointer.hpp:722-780 | the leaves of every safe document without empty containers are of this form |
| `FlatDocuments.UnflattenedNotEmpty` | lmf-server/src/nlohmann/detail/json_pointer.hpp:794-819 | `unflatten` makes no empty container, and only takes primitive values |
| `FlatDocuments.PrefixIsLost` | lmf-server/src/nlohmann/detail/json_pointer.hpp:270-290 | a concrete flat object with a key that is a prefix of another, which is lost |
| `FlattenLaws.NoZeroKeyIsSafe` | lmf-server/src/nlohmann/detail/json_pointer.hpp:270-277 | documents without a key "0" meet the order condition |
| `FlattenLaws.PruneKeeps` | lmf-server/src/nlohmann/detail/json_pointer.hpp:730-737 | replacing empty containers changes nothing exactly when there are none |
| `FlatMeaning.PruneMeans` | lmf-server/src/nlohmann/detail/json_pointer.hpp:730-753 | the pruned document has null in the places of empty containers, the scalars as they were, and the other containers with the same length or the same keys |
| `FlattenLaws.ReplayLeaf` | lmf-server/src/nlohmann/detail/json_pointer.hpp:261-319 | replaying one leaf extends the document under construction by exactly this leaf and fills null gaps left by indices out of order |
| `FlattenLaws.ByteOrderStartsWell` | lmf-server/src/nlohmann/detail/json_pointer.hpp:794-819 | in byte order the first leaf below any array is below element 0, and in a safe document none below an object is below "0" |
| `FlattenLaws.BuiltCompletely` | lmf-server/src/nlohmann/detail/json_pointer.hpp:794-819 | once all leaves are replayed no gap is left |
| `FlattenLaws.BreaksAtZero` | lmf-server/src/nlohmann/detail/json_pointer.hpp:270-277 | a first leaf below key "0" turns the object into an array, at any depth, unless the step throws |
| `FlattenLaws.StaysBroken` | lmf-server/src/nlohmann/detail/json_pointer.hpp:261-319 | no later leaf repairs this |
| `FlattenLaws.UnsafeLeaf` | lmf-server/src/nlohmann/detail/json_pointer.hpp:794-819 | an unsafe document does have a leaf that arrives in this way |
| `Values.EqualReflexive` | lmf-server/src/nlohmann/json.hpp:3606-3745 | a document equals itself exactly when it holds no NaN and no discarded value |
| `Values.EqualIsIdentity` | lmf-server/src/nlohmann/json.hpp:3529-3592 | where two documents have the same types at every place, `operator==` holds exactly when they are identical, in texts, bytes with their subtypes, numbers, keys and the order of elements, and hold no NaN and no discarded value |
| `Values.EqualAcrossKinds` | lmf-server/src/nlohmann/json.hpp:3569-3604 | values of different types are equal only if both are numbers: integer and double when the integer is converted to that double, signed and unsigned when they are congruent modulo 2^64 |
| `Values.EqualSymmetric` | lmf-server/src/nlohmann/json.hpp:3735-3745 | `operator==` is symmetric on all documents, mixed number kinds included |
| `Values.EqualIsComparable` | lmf-server/src/nlohmann/json.hpp:3606-3745 | what equals anything holds no NaN and no discarded value |
| `Values.SmallIntegersAreExact` | lmf-server/src/nlohmann/json.hpp:3569-3584 | integers of magnitude at most 2^53 survive the conversion to double |
| `Rounding.RoundedIsNearest` | lmf-server/src/nlohmann/json.hpp:3569-3584 | the conversion gives the nearest double, and of two that are equally near the one with the even significand |
| `Rounding.RoundedIsDouble` | lmf-server/src/nlohmann/json.hpp:3569-3584 | what it gives is a double: at most 53 bits times a power of two |
| `Ordering.StrictWeakOrder` | lmf-server/src/nlohmann/json.hpp:3529-3619 | `operator<` is irreflexive, asymmetric and transitive, and so is incomparability transitive, on documents that are exact for the kinds of numbers they may hold: without floats any 64-bit signed integers and unsigned ones below 2^63, without signed integers and floats any unsigned ones, with both only integers that are doubles |
| `OrderBreaks.InexactBreaksOrder` | lmf-server/src/nlohmann/json.hpp:3529-3619 | necessity, for any choice of kinds of numbers: every document with numbers of these kinds that is not exact for them, through a value at any depth, breaks one of these laws together with two others of these kinds |
| `OrderBreaks.InexactIntegerBreaks` | lmf-server/src/nlohmann/json.hpp:3569-3576 | for each inexact signed integer, the double it rounds to and a neighbour that rounds to the same double make incomparability intransitive |
| `OrderBreaks.InexactUnsignedBreaks` | lmf-server/src/nlohmann/json.hpp:3577-3584 | the same for each inexact unsigned value, with another unsigned one |
| `OrderBreaks.LargeUnsignedBreaks` | lmf-server/src/nlohmann/json.hpp:3585-3592 | each unsigned value of 2^63 or more is above unsigned 0 and below signed 0 |
| `OrderBreaks.UnorderedBreaks` | lmf-server/src/nlohmann/json.hpp:3600-3619 | NaN and discarded values make incomparability intransitive |
| `Rounding.Neighbour` | lmf-server/src/nlohmann/json.hpp:3569-3584 | every inexact integer has a neighbour that is converted to the same double |
| `Ordering.IncomparableIsEqual` | lmf-server/src/nlohmann/json.hpp:3735-3802 | two such documents are equal exactly when they are incomparable and agree in the subtypes of binary values, which `operator<` does not look at |
| `Ordering.LessIsTreeLess` | lmf-server/src/nlohmann/json.hpp:3796-3802 | `operator<` is the lexicographic order of canonical trees, through nested arrays, objects and mixed numbers |
| `Ordering.EqualIsSameTree` | lmf-server/src/nlohmann/json.hpp:3735-3745 | `operator==` is identity of these trees and, which the trees leave out, of the subtypes of binary values, for all documents that are exact |
| `Ordering.TreeTotal` | lmf-server/src/nlohmann/json.hpp:3796-3802 | the tree order is total |
| `Ordering.TreeTransitive` | lmf-server/src/nlohmann/json.hpp:3796-3802 | the tree order is transitive |
| `Ordering.KindsLess` | lmf-server/src/nlohmann/detail/value_t.hpp:83-104 | different kinds compare by the rank table, in agreement with the trees |
| `Ordering.RoundingBreaksOrder` | lmf-server/src/nlohmann/json.hpp:3569-3576 | three values around 2^53 for which incomparability is not transitive |
| `Ordering.WrappingBreaksOrder` | lmf-server/src/nlohmann/json.hpp:3585-3592 | a large unsigned value equals -1 and is below signed 0, though unsigned 0 is below it and incomparable with signed 0 |
| `Ordering.SubtypesAreNotOrdered` | lmf-server/src/nlohmann/byte_container_with_subtype.hpp:56-60 | two binary values that are incomparable and not equal |
| `ThreeWayComparison.CompareAgrees` | lmf-server/src/nlohmann/json.hpp:3664-3675 | unless `<=>` finds two documents unordered, it says exactly what `operator<` says in both directions, for all documents |
| `ThreeWayComparison.UnorderedIs` | lmf-server/src/nlohmann/json.hpp:3606-3619 | two values that are not containers of one kind are unordered exactly when NaN meets a number or one of them is discarded |
| `ThreeWayComparison.ItemsUnordered` | lmf-server/src/nlohmann/json.hpp:3664-3675 | two arrays are unordered exactly when the first elements that are not equivalent are |
| `ThreeWayComparison.MembersUnordered` | lmf-server/src/nlohmann/json.hpp:3664-3675 | two objects are unordered exactly when, behind members with equal keys and equivalent values, two values under the same key are |
| `ThreeWayComparison.ComparableIsOrdered` | lmf-server/src/nlohmann/json.hpp:3664-3675 | documents without NaN and discarded values are never unordered |
| `ThreeWayComparison.SameLess` | lmf-server/src/nlohmann/json.hpp:3664-3675 | on these documents less, greater and equivalent of `<=>` are less, greater and incomparable of `operator<` |
| `ThreeWayComparison.NaNMakesADifference` | lmf-server/src/nlohmann/json.hpp:3664-3675 | two concrete arrays with NaN that `operator<` orders and `<=>` does not |
| `Destruction.Destroy` | lmf-server/src/nlohmann/json.hpp:567-663 | the explicit-stack loop ends, pops every nested value exactly as often as it occurs, and nests destructor calls at most two deep, whatever the depth of the document |
| `Destruction.DrainPopsAll` | lmf-server/src/nlohmann/json.hpp:589-615 | draining any stack pops exactly what is reachable from it, one pop for each node |
| `OrderedMaps.HistoryFromEmpty` | lmf-server/src/nlohmann/ordered_map.hpp:55-259 | any history of calls from the empty container keeps keys distinct and yields the abstract map and insertion order that the history means |
| `OrderedMaps.HistoryRefines` | lmf-server/src/nlohmann/ordered_map.hpp:55-259 | the same from any container with distinct keys |
| `OrderedMaps.PerformRefines` | lmf-server/src/nlohmann/ordered_map.hpp:55-259 | each single call refines its abstract meaning |
| `OrderedMaps.ViewInjective` | lmf-server/src/nlohmann/ordered_map.hpp:55-259 | the abstract map with its order determines the vector |
| `OrderedMaps.InsertIsEmplaces` | lmf-server/src/nlohmann/ordered_map.hpp:347-354 | inserting a range is emplacing its pairs in turn, so range insertion is one of these histories |
| `OrderedMaps.OrderedMap.Emplace` | lmf-server/src/nlohmann/ordered_map.hpp:55-66 | a known key is left alone, a new one is appended; the returned position and flag say which |
| `OrderedMaps.OrderedMap.InsertAll` | lmf-server/src/nlohmann/ordered_map.hpp:347-354 | range insertion; of equal keys the earlier entry wins |
| `OrderedMaps.OrderedMap.Subscript` | lmf-server/src/nlohmann/ordered_map.hpp:83-86 | `operator[]` emplaces a blank value and returns the key's position |
| `OrderedMaps.OrderedMap.Store` | lmf-server/src/nlohmann/ordered_map.hpp:83-86 | assignment through `operator[]` overwrites in place or appends |
| `OrderedMaps.OrderedMap.EraseKey` | lmf-server/src/nlohmann/ordered_map.hpp:163-180 | the one-place shift removes exactly the entry of the key and reports how many were removed |
| `OrderedMaps.OrderedMap.EraseRange` | lmf-server/src/nlohmann/ordered_map.hpp:208-259 | the in-place shift leaves exactly prefix and suffix, and returns the position of the first entry behind the range |
| `OrderedMaps.CutAt` | lmf-server/src/nlohmann/ordered_map.hpp:208-259 | where each entry comes from: those in front of the range stay, those behind it move down by its length |
| `OrderedMaps.OrderedMap.EraseAt` | lmf-server/src/nlohmann/ordered_map.hpp:203-206 | erasing one position |
| `OrderedMaps.OrderedMap.Find` | lmf-server/src/nlohmann/ordered_map.hpp:287-297 | the first position of the key, or the end |
| `OrderedMaps.OrderedMap.Count` | lmf-server/src/nlohmann/ordered_map.hpp:261-271 | 1 exactly when an entry with the key exists |
| `OrderedMaps.OrderedMap.LookUp` | lmf-server/src/nlohmann/ordered_map.hpp:107-118 | `at` finds the value of the key or throws |
| `Trilateration.NormalEquationMinimises` | lmf-server/src/locator.cpp:59-61 | with positive weights, singular or not: no point has a smaller weighted squared residual than the answer, and none with the same residual is nearer to the origin |
| `Trilateration.AnswerSolves` | lmf-server/src/locator.cpp:59-61 | with positive weights the answer solves the normal equation also where the matrix is singular |
| `Trilateration.LeastNormIsBest` | lmf-server/src/locator.cpp:60 | for any singular system the answer misses the right-hand side by as little as possible, and of the points that do so it is the nearest to the origin |
| `Trilateration.DetIsPairSum` | lmf-server/src/locator.cpp:59-61 | the determinant of A'WA is the sum over pairs of w_i w_j times the squared cross product |
| `Trilateration.PairSumPositive` | lmf-server/src/locator.cpp:59-61 | with positive weights this sum is positive exactly when two rows are not parallel |
| `Trilateration.CramerForward` | lmf-server/src/locator.cpp:59-61 | a solution of a regular system is the one that is computed |
| `Trilateration.CramerBackward` | lmf-server/src/locator.cpp:59-61 | what is computed for a regular system solves it |
| `Trilateration.ConsistentSolves` | lmf-server/src/locator.cpp:59-61 | a common solution of all equations solves the normal equation, whatever the weights |
| `LinearPhase.LlsSolvable` | lmf-server/src/locator.cpp:63-74 | with positive weights the system is regular exactly when the anchors are not all on one line; otherwise there is an answer unless the approximate solver fails |
| `LinearPhase.LlsMinimises` | lmf-server/src/locator.cpp:59-74 | for any anchors, on one line too, and any distances: the answer has the least weighted squared residual of the centred equations, and of such points it is the nearest to the origin |
| `LinearPhase.EquationMeans` | lmf-server/src/locator.cpp:66-73 | what the i-th equation says: how far its sides differ, twice, is how much the power of the point for that anchor falls short of the mean power |
| `LinearPhase.CollinearAnswer` | lmf-server/src/locator.cpp:63-74 | for anchors on one line the answer is on the parallel of that line through the origin, wherever the anchors are |
| `LinearPhase.ExactRecovery` | lmf-server/src/locator.cpp:63-74 | for any number of anchors not on one line and any positive weights, true distances from p give back p |
| `LinearPhase.EqualPowersRecovered` | lmf-server/src/locator.cpp:63-74 | more generally, a point of equal power to all anchors is the answer |
| `LinearPhase.SolutionsHaveEqualPowers` | lmf-server/src/locator.cpp:63-74 | conversely, a point that solves every equation has equal power to all anchors |
| `LinearPhase.RadicalCentreExists` | lmf-server/src/locator.cpp:66-73 | three anchors not on one line have a point of equal power for any distances, because the three centred equations are dependent |
| `LinearPhase.RadicalCentre` | lmf-server/src/locator.cpp:39-74 | for three anchors not on one line and any distances, even inconsistent ones, the answer has equal power to all three anchors and does not depend on the positive weights |
| `LinearPhase.SkewRows` | lmf-server/src/locator.cpp:66 | the centred anchors are not all parallel exactly when the anchors are not all on one line |
| `Locator.TrilaterationNlls` | lmf-server/src/locator.cpp:77-123 | the damped Gauss-Newton loop computes the specified iteration, which the rows on its steps and its end explain, with at most 500 solves |
| `Locator.Linearise` | lmf-server/src/locator.cpp:92-101 | the inner loop builds f and J, unless the estimate is on an anchor |
| `Locator.AnswersExplained` | lmf-server/src/locator.cpp:91-118 | the loop follows the damped steps up to the first iteration after which it does not go on, and answers an exception, the start, or one more damped step, which is then short or the last allowed; the answer and the number of solves are determined by this |
| `Locator.GaussNewtonDescends` | lmf-server/src/locator.cpp:92-104 | the step of an iteration: backwards in full it minimises the weighted linear model of the residuals at the estimate, and the move the loop makes, a tenth of it, lowers that model by 0.19 times the weighted sum of what the rows see of it, never raising it |
| `Locator.StepDescends` | lmf-server/src/locator.cpp:102-104 | for any system with positive weights, singular or not: the damped step lowers the linearised problem by exactly this amount, and leaves it as it was only if no row sees the step |
| `Locator.LinearisationMeans` | lmf-server/src/locator.cpp:92-100 | f and J are the value and the gradient of the residuals: the rows of J are unit vectors and the linear model touches the residual from below |
| `Locator.GoesOnMeans` | lmf-server/src/locator.cpp:79-117 | the stopping rule in numbers: the loop goes on exactly after a finite step of at least a thousandth and before 500 iterations |
| `Locator.ExactStartIsKept` | lmf-server/src/locator.cpp:77-123 | a start at the exact distances, on no anchor, with anchors not on one line, is returned unchanged after one solve |
| `Locator.WeightsArePositive` | lmf-server/src/locator.cpp:39 | non-negative distances give positive weights |
| `Locator.WeightsMean` | lmf-server/src/locator.cpp:39 | each weight times 1 plus its distance is 1, so that the nearer of two anchors weighs more |
| `Locator.LocatorObject.constructor` | lmf-server/src/locator.cpp:10-16 | a new locator has a three-entry estimate |
| `Locator.LocatorObject.FirstLlsInit` | lmf-server/src/locator.cpp:35-56 | anchors, distances and weights are stored; the start is the answer of the linear phase, least-norm where that is singular, or the previous estimate when it throws |
| `Locator.LocatorObject.Localize` | lmf-server/src/locator.cpp:18-33 | the answer becomes estimate and result, or the empty matrix is returned and the estimate kept; anchors, weights and start never change |
| `Locator.AnswersForgetHistory` | lmf-server/src/locator.cpp:18-33 | over any run of `localize` calls, an answer depends only on the initialisation and the call's own distances |
| `Locator.LinearPhaseThrows` | lmf-server/src/locator.cpp:43-54 | the linear phase throws exactly when a size is not 3, a distance is -1, or the anchors need the approximate solver and that fails; for non-negative distances they need it exactly when they are on one line |
| `Locator.FailedInitIsFatal` | lmf-server/src/locator.cpp:45-53 | the start of a new locator has three entries exactly when its linear phase throws, and then every later call returns the empty matrix |
| `Locator.TruePositionIsFound` | lmf-server/src/locator.cpp:18-56 | initialised with true distances from a point off the anchors, the locator answers every later call with these distances by the point itself, after any calls in between |
| `Text.SortedKeys` | lmf-server/src/nlohmann/json.hpp:4976 | the iteration order of a `std::map`: every key once, in byte order |
| `Text.BeforeTotal` | lmf-server/src/nlohmann/json.hpp:3546-3547 | byte order of strings is total and asymmetric |
| `Text.BeforeIs` | lmf-server/src/nlohmann/json.hpp:3546-3547 | the byte order in one formula: a proper prefix is first, otherwise the first byte that differs decides |
| `Text.BeforeTransitive` | lmf-server/src/nlohmann/json.hpp:3546-3547 | byte order of strings is transitive |
| `Text.DigitsOfNumeral` | lmf-server/src/nlohmann/detail/json_pointer.hpp:217-235 | a numeral without leading zero is what `std::to_string` prints for its value |
| `Text.DigitsOrder` | lmf-server/src/nlohmann/detail/json_pointer.hpp:217-235 | shorter numerals are smaller, and those of one length are in byte order |

## Left out

- Patch.Document.Execute: when a replace or a test has two faults at once, such as a missing "value" and an unresolvable path, C++ leaves open which is found first; the model reports the missing member. That the operation throws is the same.
- Patch.Exec: the message of a failing test is built with `dump`, which throws type error 316 instead when the entry holds a string that is not valid UTF-8 (json.hpp:4876); the model always throws 501.
- Diffing.RoundTrip: for documents with NaN or discarded values the outcome does not compare equal to the target, as the target does not equal itself; the lemma states what it is instead.
- Values.Equal: `operator!=`, `<=`, `>` and `>=` and the overloads for scalars are not modelled.
- Resolution.GetChecked: its `const` overload is the same loop and is not repeated; the `const` overload of `get_unchecked`, whose behaviour on missing members is undefined, is not modelled.
- Resolution.GetAndCreate: what a failing `unflatten` leaves behind is not stated, because the partial result is a local variable.
- References into a tree are values with a trail. That two references may denote the same node, that insertion invalidates references, and a patch applied to itself are not captured.
- `DiffScript.DiffArrays`, `DiffScript.DiffObjects` and `Flattening.FlattenItems`, `FlattenMembers` are cases of one C++ function each; they are separate methods so that each loop has its own contract.
- Documents as class instances: a node of the tree is a value; only the document that is patched, the ordered map and the locator are objects.
- `ordered_json`, whose objects compare by insertion order, and `JSON_DIAGNOSTICS` with its parent pointers.
- The range and initializer-list constructors of `ordered_map`, which do not check keys for duplicates; its heterogeneous-key overloads, which repeat the same bodies; the destroy-and-reconstruct way in which its shifts assign entries.
- Exception message texts, and running out of memory, in particular for huge indices given to `operator[]`.
- `hash`, `concat`, `json_ref`, iterators, allocators, type accessors, `get<>` conversions and the constructors from initializer lists.
- The text parser, the serializer and the binary formats.
- Trilateration.Solve: Armadillo takes a system as singular when its estimated reciprocal condition is below the machine epsilon, the model when its determinant is zero. The warning it prints is not modelled.
- Locator.TrilaterationNlls: rounding and the convergence of the iteration are not modelled; the code promises neither. A distance of exactly -1 makes a weight infinite; the matrix then has entries that are not finite, on which solving throws.
- Locator.AnswersExplained: says how an answer came about, not how near it is to a minimum of the non-linear problem.
- `predicted_error`, whose only call is commented out, console output, and the check in `localize` that only prints.
- The HTTP servers, the network-function simulators and all Python scripts.

# labpr7 product-collection server and client runner, in Dafny

This project models the sequential core of a client/server application that
keeps a shared collection of products, each owned by the user who added it.
Clients send `Request`s, and the server answers with `Response`s.

## Server side

The collection store is modelled in `collection.dfy`.
- `ProductCollectionManager` is a class whose `items` field holds the products.
- Its methods are proved against functions on the old contents:
  - validate all;
  - look up by id;
  - take the last element;
  - sort by name;
  - add after a database insert;
  - remove after a database delete;
  - clear by owner;
  - update by id.
- The store's `PriorityQueue` orders products by `Product.compareTo`, which unboxes both prices.
  - Adding to a non-empty queue compares the new product with others, so a missing price throws a `NullPointerException`.
  - `addAll` is a sequence of adds that stops at the first one that throws.
- The store keeps one invariant: every stored product has an id, and once it holds two or more products every one has a price.
- So `add` into a non-empty store refuses a product without a price. An `update` to such a product can lose the old record, because `removeIf` has already dropped it when the add throws.

The command layer is modelled as one function per command.
- Each function maps a request view and the contents to a reply and new contents.
- Each command has a method that runs it against the store.
- The files are:
  - `store_commands.dfy`: add, add_if_min, update, remove_by_id, remove_greater, remove_lower, clear;
  - `query_commands.dfy`: sum_of_price, info, help, exit;
  - `show.dfy`: show, including its column-width and row-formatting loops over arrays;
  - `user_commands.dfy`: register and login.

The command registry is modelled in `registry.dfy`.
- `CommandManager` holds a name-to-command map and a history list.
- `InitCommands` makes the server's fourteen registrations.
- `handle` falls back to the not-found response for unknown names.

The request handler is modelled in `handler.dfy`.
- It decides between exit/save, the open commands (help, register, login), the user lookup and password check, and the unauthorized and invalid-request answers.
- It then dispatches through the registry.

## Client side

The client `Runner` is modelled in `runner.dfy`.
- Tokenizing a line: trim, append a space, split on the first space, then trim the argument.
- The argument-shape rules of `launchCommand`.
- Script mode: the stack of running scripts, the recursion refusal and push/pop on every exit.
- The interactive loop, with its command history and its save-then-exit at end of input.
- The product form reads its answers from the same scanner as the commands. It is given the lines not yet read and says how many it read; those lines are not run as commands.

`session.dfy` joins the two sides.
- The server never answers `save` with success, because `save` is not registered.
- So a client whose input runs out without an `exit` never leaves its loop.

## How the outside world appears

- The database (product insert and delete, user insert, lookup and password check), password hashing and the clock are function-typed parameters. They are gathered in `Registry.Env`.
- Reflection over product fields (`Show`) is a parameter giving each field's text.
- The client's product form, its server round-trip and its script files are fields of `ClientRunner.Client`. The form is a function from the command name and the unread lines to how it ended (`Built`, `Abandoned` or `RanOut`) and a count of lines read.
- The listing order of the registry's `HashMap` is a parameter `order`.
- Java `null` is `Option.None`.
- An exception a command does not catch is the reply `Escaped(fault)`. The handler turns it into the invalid-request response.

## Behaviour worth noting

- `clear` and `update` change memory only. Neither `Clear.execute` nor `CollectionManager.updateInCollection` calls the database.
- `add` and `remove` do not refresh any timestamp. `lastSaveTime` is never set, so `info` always prints its placeholder for it.
- `update` compares the stored owner with the owner field of the product the client sent, not with the logged-in user (`StoreCommands.UpdateIgnoresLogin`).
- `remove` finds the element by `Product.equals`, which ignores id and owner. After a confirmed delete it can drop another owner's product with equal fields (`Collection.RemoveCanTakeAnotherOwnersTwin`).
- `remove_greater` and `remove_lower` hand each candidate to that `remove`. The count they report is the number of the requester's own records beyond the pivot whose delete is confirmed. The records taken out have the same fields as those, but may be other records: one of the requester's own twins whose delete failed can go in place of the confirmed one (`StoreCommands.RemoveEachCanSpareConfirmed`, `StoreCommands.RemoveBeyondRemoves`).
- A form that runs out of input inside a script ends the script with ERROR: the `NoSuchElementException` passes `launchCommand` and `scriptMode` catches it as if the file were empty. At the prompt the same exception leads to the end-of-input save.
- `verifyUserPassword` hashes `salt + password`, so a missing password or salt is hashed as the text "null"; only a missing stored hash throws.

## Model

| member | source | states |
|---|---|---|
| Util.Wrap32 | server/src/main/java/com/ann/server/commands/SumOfPrice.java:48-51 | the Java `int` result is congruent to the exact value modulo 2^32 and equals it when it fits |
| Util.Wrap32Congruent | server/src/main/java/com/ann/server/commands/SumOfPrice.java:48-51 | values congruent modulo 2^32 wrap to the same `int` |
| Util.Wrap32Add | server/src/main/java/com/ann/server/commands/SumOfPrice.java:48-51 | wrapping after each addition equals wrapping the exact sum once, as the stream's `int` sum does |
| Util.TrimStart | client/src/main/java/com/client/runtime/Runner.java:57-58 | the result is a suffix of the input, starts with a non-blank, and only blanks were dropped |
| Util.TrimEnd | client/src/main/java/com/client/runtime/Runner.java:57-58 | the result is a prefix of the input, ends with a non-blank, and only blanks were dropped |
| Util.Trim | client/src/main/java/com/client/runtime/Runner.java:57-58 | `String.trim` yields a string with no blank at either end |
| Util.TrimFixesTrimmed | client/src/main/java/com/client/runtime/Runner.java:57-58 | trimming an already trimmed string changes nothing |
| Util.TrimIdempotent | client/src/main/java/com/client/runtime/Runner.java:57-58 | trimming twice equals trimming once |
| Util.Repeat | server/src/main/java/com/ann/server/commands/Show.java:153-159 | a string of exactly n copies of the character |
| Util.PadRight | server/src/main/java/com/ann/server/commands/Show.java:139-145 | `%-Ns`: the text, then spaces up to width N, never truncated |
| Util.JoinEnds | general/src/main/java/com/general/models/UnitOfMeasure.java:28-31 | `String.join` starts with the first part and ends with the last, so no separator leads or trails |
| Util.JoinLength | general/src/main/java/com/general/models/UnitOfMeasure.java:28-31 | the joined length is the sum of the parts plus one separator per gap |
| Util.IndexOf | client/src/main/java/com/client/runtime/Runner.java:57 | the position of the first occurrence of the character |
| Util.SplitAll | client/src/main/java/com/client/runtime/Runner.java:213-214 | `split` without a limit gives at least one piece and no piece contains the separator |
| Util.SplitJoin | client/src/main/java/com/client/runtime/Runner.java:213-214 | joining the pieces with the separator gives back the input |
| Util.JoinSplit | client/src/main/java/com/client/runtime/Runner.java:213-214 | splitting joined separator-free pieces gives back the pieces |
| Util.SplitAfter | client/src/main/java/com/client/runtime/Runner.java:213-214 | splitting at a first separator gives the head and the split of the rest |
| Util.SplitCount | client/src/main/java/com/client/runtime/Runner.java:208 | the number of pieces is one more than the number of separators |
| Util.DropTrailingEmpty | client/src/main/java/com/client/runtime/Runner.java:213-214 | `split` drops trailing empty pieces: the result is a prefix whose last piece is non-empty |
| Util.NatToString | server/src/main/java/com/ann/server/commands/SumOfPrice.java:38-39 | the decimal text of a natural number is non-empty and made of digits |
| Util.DigitsRoundTrip | client/src/main/java/com/client/runtime/Runner.java:192 | reading back the printed digits gives the number |
| Util.ParsePrinted | client/src/main/java/com/client/runtime/Runner.java:192 | `Long.parseLong` accepts the printed form of every `long` and returns that value |
| Models.Units | general/src/main/java/com/general/models/UnitOfMeasure.java:8-12 | four pairwise distinct constants |
| Models.UnitNameList | general/src/main/java/com/general/models/UnitOfMeasure.java:28-31 | one name per constant, position by position |
| Models.UnitsComplete | general/src/main/java/com/general/models/UnitOfMeasure.java:8-12 | every constant is among the listed ones |
| Models.UnitNamesShape | general/src/main/java/com/general/models/UnitOfMeasure.java:19-31 | the names are METERS, CENTIMETERS, SQUARE_METERS, GRAMS in order; each occurs once; the joined list starts with the first and ends with the last |
| Models.ValidOrganization | general/src/main/java/com/general/models/Organization.java:34-38 | valid iff the name is present and non-empty and the year is present and positive |
| Models.OrganizationEqualsContract | general/src/main/java/com/general/models/Organization.java:40-52 | equals holds iff name and year agree; it is reflexive; equal organizations hash equally |
| Models.NewProduct | general/src/main/java/com/general/models/Product.java:26-33 | the constructor stores the id and the five fields, takes today's date and leaves the owner null |
| Models.ValidProduct | general/src/main/java/com/general/models/Product.java:40-49 | each failed check makes it invalid and an invalid product fails one of them; a missing price is accepted |
| Models.SameFieldsContract | general/src/main/java/com/general/models/Product.java:14 | equality ignores id and owner, and is symmetric and transitive |
| Models.CompareTo | general/src/main/java/com/general/models/Product.java:51-55 | the sign of the result is the order of the prices; a missing price throws |
| Models.CompareToOrder | general/src/main/java/com/general/models/Product.java:51-55 | compareTo is antisymmetric in sign and transitive |
| Models.NewUser | general/src/main/java/com/general/models/User.java:31-36 | the four-argument constructor stores its fields and leaves the id null |
| Models.NewUserWithId | general/src/main/java/com/general/models/User.java:47-50 | the five-argument constructor also sets the id, otherwise as the four-argument one |
| Models.ValidUser | general/src/main/java/com/general/models/User.java:75-83 | invalid when hash or salt is missing or shorter than 8; otherwise valid iff a registration date is present |
| Envelope.Respond | general/src/main/java/com/general/network/Response.java:27-29 | Response(success, message) has no data |
| Envelope.Status | general/src/main/java/com/general/network/Response.java:36-38 | Response(success) has neither message nor data |
| Envelope.ResponseText | general/src/main/java/com/general/network/Response.java:46-49 | toString is "", the message, the data, or message + newline + data, by which are present |
| Envelope.Request.constructor | general/src/main/java/com/general/network/Request.java:20-22 | stores success, command and data; login, password and userId start null |
| Envelope.Request.Named | general/src/main/java/com/general/network/Request.java:30-32 | Request(name, data) is a successful request with those fields and null credentials |
| Envelope.Request.SetLogin | general/src/main/java/com/general/network/Sendable.java:34-36 | sets the login and changes no other field |
| Envelope.Request.SetPassword | general/src/main/java/com/general/network/Sendable.java:41-43 | sets the password and changes no other field |
| Envelope.Request.SetUserId | general/src/main/java/com/general/network/Sendable.java:48-50 | sets the user id and changes no other field |
| Envelope.Request.View | general/src/main/java/com/general/network/Request.java:39-41 | the snapshot carries every field, the command being the message field |
| Envelope.RequestEquality | general/src/main/java/com/general/network/Request.java:49-65 | requests are equal iff the same object or the same command; equal ones hash equally; equals is reflexive and false on null |
| Envelope.RequestTextShape | general/src/main/java/com/general/network/Request.java:73-80 | toString is "Request{", the error marker if not successful, the command, the data if present, "}" |
| Collection.NameLeqPreorder | general/src/main/java/com/general/managers/CollectionManager.java:195-199 | comparing by name is total and transitive, and ties are exactly equal names |
| Collection.InsertMultiset | general/src/main/java/com/general/managers/CollectionManager.java:195-199 | inserting adds exactly the element |
| Collection.InsertSorted | general/src/main/java/com/general/managers/CollectionManager.java:195-199 | inserting into a name-sorted list keeps it sorted |
| Collection.SortSorted | general/src/main/java/com/general/managers/CollectionManager.java:195-199 | the sort's output is ordered by name |
| Collection.SortPermutation | general/src/main/java/com/general/managers/CollectionManager.java:195-210 | the sort keeps the multiset and the length |
| Collection.WithNameAppend | general/src/main/java/com/general/managers/CollectionManager.java:195-199 | selecting one name distributes over concatenation |
| Collection.InsertStable | general/src/main/java/com/general/managers/CollectionManager.java:195-199 | an inserted element goes after every element with the same name |
| Collection.SortStable | general/src/main/java/com/general/managers/CollectionManager.java:195-199 | the sort is stable: elements sharing a name keep their relative order |
| Collection.InsertLast | general/src/main/java/com/general/managers/CollectionManager.java:195-199 | an element not below any other goes at the end |
| Collection.SortKeepsSorted | general/src/main/java/com/general/managers/CollectionManager.java:195-199 | sorting a sorted list changes nothing |
| Collection.SortIdempotent | general/src/main/java/com/general/managers/CollectionManager.java:195-210 | sorting twice equals sorting once |
| Collection.ValidUniqueIds | general/src/main/java/com/general/managers/CollectionManager.java:54-62 | the kept ids are exactly the ids of the valid elements |
| Collection.ValidUniqueSurvivors | general/src/main/java/com/general/managers/CollectionManager.java:54-62 | an element is kept iff it is valid and the first valid one with its id, in original order |
| Collection.ValidUniqueClean | general/src/main/java/com/general/managers/CollectionManager.java:58-62 | after validation every element is valid and ids are pairwise distinct |
| Collection.CleanIsFixed | general/src/main/java/com/general/managers/CollectionManager.java:54-77 | a collection already valid and duplicate-free is left as it is |
| Collection.ValidUniqueIdempotent | general/src/main/java/com/general/managers/CollectionManager.java:48-78 | validating twice equals validating once |
| Collection.ValidUniqueSub | general/src/main/java/com/general/managers/CollectionManager.java:54-63 | validation keeps a sub-multiset of the elements it is given |
| Collection.KeepValidUnique | general/src/main/java/com/general/managers/CollectionManager.java:48-78 | the loop with the set of seen ids computes the validated collection; over a comparable collection its queue adds never throw |
| Collection.IndexOfId | general/src/main/java/com/general/managers/CollectionManager.java:150-155 | the first position holding the id, or none when no element has it |
| Collection.QueueAddComparable | general/src/main/java/com/general/models/Product.java:52-55 | an add into the queue succeeds iff the resulting queue has a price on every element once it holds two or more, and a failed add leaves a comparable queue comparable |
| Collection.ComparableKept | general/src/main/java/com/general/managers/CollectionManager.java:174-182 | any sub-multiset of a comparable queue, as remove and removeIf leave, is comparable |
| Collection.RefillComparable | server/src/main/java/com/ann/server/managers/ProductCollectionManager.java:81-89 | from a comparable queue, addAll adds everything in order iff the resulting queue is comparable |
| Collection.RefillKept | server/src/main/java/com/ann/server/managers/ProductCollectionManager.java:81-89 | addAll keeps at most the elements it was given |
| Collection.BaseAddContract | general/src/main/java/com/general/managers/CollectionManager.java:162-166 | the base add throws exactly when the queue add compares a null price, changing nothing; otherwise the contents are the old ones plus the element, name-sorted, and the element's id is returned |
| Collection.StoreAddContract | server/src/main/java/com/ann/server/managers/ProductCollectionManager.java:100-112 | the owner is set before insert; a negative id is returned with memory unchanged; otherwise the queue add throws iff it compares a null price, leaving memory unchanged, and else the element gains that id, is added once and the result is name-sorted |
| Collection.FindEqual | general/src/main/java/com/general/managers/CollectionManager.java:174-176 | the first element equal to the argument under `Product.equals`, or none |
| Collection.RemoveFirstEqualContents | general/src/main/java/com/general/managers/CollectionManager.java:174-176 | removal takes away exactly one element, the first equal one |
| Collection.FieldsOfFind | general/src/main/java/com/general/managers/CollectionManager.java:174-176 | some element equals the argument exactly when the argument's fields occur among the elements' fields |
| Collection.FieldsOfRemove | general/src/main/java/com/general/managers/CollectionManager.java:174-176 | removal takes exactly one occurrence of the argument's fields out of the elements' fields |
| Collection.FieldsOfPermutation | server/src/main/java/com/ann/server/managers/ProductCollectionManager.java:146-157 | reordering the elements, as the sort does, keeps the multiset of their fields |
| Collection.StoreRemoveContract | server/src/main/java/com/ann/server/managers/ProductCollectionManager.java:123-139 | null or another owner gives false with nothing changed; a failed or throwing delete changes nothing; true means one field-equal element is gone |
| Collection.RemoveCanTakeAnotherOwnersTwin | server/src/main/java/com/ann/server/managers/ProductCollectionManager.java:133-138 | a confirmed delete of one's own product can remove another owner's product with equal fields |
| Collection.WithoutOwnerContents | general/src/main/java/com/general/managers/CollectionManager.java:179-182 | removing by owner drops exactly that owner's elements and keeps the count of every other |
| Collection.WithoutIdContents | general/src/main/java/com/general/managers/CollectionManager.java:225-229 | removing by id drops exactly the elements with that id |
| Collection.WithoutIdShorter | general/src/main/java/com/general/managers/CollectionManager.java:225-226 | removing by id never grows the collection and shrinks it when the id is present |
| Collection.UpdatedWithContents | general/src/main/java/com/general/managers/CollectionManager.java:225-229 | no match changes nothing; a match removes every element with the id, and the new one is then added once unless its add throws, which happens iff the add compares a null price over what is left |
| Collection.UpdateThrowsOnNullPrice | general/src/main/java/com/general/managers/CollectionManager.java:225-229 | over a comparable store with a match, the update's add throws iff the new element has no price and another record remains |
| Collection.IdentifiedKept | server/src/main/java/com/ann/server/managers/ProductCollectionManager.java:99-139 | every sub-multiset of a collection with ids has ids |
| Collection.ProductCollectionManager.constructor | server/src/main/java/com/ann/server/managers/ProductCollectionManager.java:32-62 | load puts the loaded products into the queue and sorts them by name, keeping the store invariant, and sets the init time; the save time stays null |
| Collection.ProductCollectionManager.CollectionSize | general/src/main/java/com/general/managers/CollectionManager.java:126-128 | the number of stored elements |
| Collection.ProductCollectionManager.ValidateAll | general/src/main/java/com/general/managers/CollectionManager.java:48-78 | the new contents are the validated old contents, and the store invariant is kept |
| Collection.ProductCollectionManager.CheckExist | general/src/main/java/com/general/managers/CollectionManager.java:96-101 | true iff some element has the id |
| Collection.ProductCollectionManager.GetById | general/src/main/java/com/general/managers/CollectionManager.java:150-155 | the first element with the id, or null iff none has it |
| Collection.ProductCollectionManager.GetLast | general/src/main/java/com/general/managers/CollectionManager.java:135-142 | null iff empty, otherwise the last element |
| Collection.ProductCollectionManager.Offer | general/src/main/java/com/general/models/Product.java:52-55 | PriorityQueue.add: the queue gains the element unless the add compares a null price, which throws and changes nothing |
| Collection.ProductCollectionManager.SetCollection | server/src/main/java/com/ann/server/managers/ProductCollectionManager.java:81-89 | clear then addAll: the contents are the adds made before the first one that throws |
| Collection.ProductCollectionManager.SortCollection | server/src/main/java/com/ann/server/managers/ProductCollectionManager.java:146-156 | the contents become the re-added name sort of the old ones; over a comparable queue nothing throws and the contents are the stable name sort; the store invariant is kept |
| Collection.ProductCollectionManager.AddSorted | general/src/main/java/com/general/managers/CollectionManager.java:162-166 | result and new contents are those of the base add: add, re-sort, return the element's id, or the NullPointerException of the queue add |
| Collection.ProductCollectionManager.AddToCollection | server/src/main/java/com/ann/server/managers/ProductCollectionManager.java:100-112 | result and new contents are those of the persist-then-memory add, and the store invariant is kept |
| Collection.ProductCollectionManager.RemoveFromCollection | server/src/main/java/com/ann/server/managers/ProductCollectionManager.java:123-139 | result and new contents are those of the owner-checked, persist-then-memory remove |
| Collection.ProductCollectionManager.ClearCollection | general/src/main/java/com/general/managers/CollectionManager.java:179-182 | removes the caller's elements; a null login throws once an element is compared |
| Collection.ProductCollectionManager.UpdateInCollection | general/src/main/java/com/general/managers/CollectionManager.java:225-229 | result and new contents are those of removeIf by id followed by the queue add of the new element, and the store invariant is kept |
| CommandBase.Usage | server/src/main/java/com/ann/server/commands/Clear.java:32-33 | the failure that quotes the command's usage, with no data |
| CommandBase.Caught | server/src/main/java/com/ann/server/commands/Add.java:37-38 | a caught exception becomes a failure carrying its message |
| StoreCommands.AddRejectsMissingProduct | server/src/main/java/com/ann/server/commands/Add.java:30-36 | without a product the reply is a failure, the wrong-count one for null data, and nothing is stored |
| StoreCommands.AddStoresOwnedProduct | server/src/main/java/com/ann/server/commands/Add.java:28-39 | success iff the id is at least 1 and the queue add does not throw, carrying the id; memory gains the product under the request's login iff the id is not negative and the add does not throw; a throwing add replies with its null message |
| StoreCommands.AddUnpricedRefused | server/src/main/java/com/ann/server/commands/Add.java:32-38 | into a non-empty store, a product without a price is never stored and the reply is a failure |
| StoreCommands.AddZeroIdStoredButRefused | server/src/main/java/com/ann/server/commands/Add.java:32-33 | an insert that returns id 0 stores the product yet reports failure |
| StoreCommands.ExecuteAdd | server/src/main/java/com/ann/server/commands/Add.java:28-40 | the command's reply and the store's new contents are those of the add function |
| StoreCommands.MinIndex | server/src/main/java/com/ann/server/commands/AddIfMin.java:49-57 | the position the stream minimum picks lies inside the collection |
| StoreCommands.MinIndexContract | server/src/main/java/com/ann/server/commands/AddIfMin.java:49-57 | the minimum exists iff there is one element or all prices are present; it has the lowest price and is its first occurrence; otherwise a NullPointerException |
| StoreCommands.AddIfMinOnlyBelowMinimum | server/src/main/java/com/ann/server/commands/AddIfMin.java:28-47 | success iff a product is sent, the collection is non-empty and its price is strictly below every price; on failure nothing changes |
| StoreCommands.AddIfMinReportsAnyId | server/src/main/java/com/ann/server/commands/AddIfMin.java:34-37 | on success the reply carries the insert's id even when negative, and the product is stored iff the id is not negative |
| StoreCommands.ExecuteAddIfMin | server/src/main/java/com/ann/server/commands/AddIfMin.java:28-47 | reply and new contents are those of the add_if_min function |
| StoreCommands.UpdateOutcome | server/src/main/java/com/ann/server/commands/Update.java:32-82 | success iff a product is sent, its id is stored, the stored owner is present and equals the sent owner field, the product is valid and the queue add does not throw; a failed check changes nothing; a throwing add replies with the unexpected-error text and "null" and leaves the old record removed |
| StoreCommands.UpdateToNullPriceLosesRecord | server/src/main/java/com/ann/server/commands/Update.java:67-81 | updating one's record to a product without a price, with another record stored, fails and leaves no record with that id |
| StoreCommands.UpdateContents | server/src/main/java/com/ann/server/commands/Update.java:67-70 | on success the old records with that id are gone, the new one is there once, the rest is kept, and the result is name-sorted |
| StoreCommands.UpdateIgnoresLogin | server/src/main/java/com/ann/server/commands/Update.java:59-61 | the outcome does not depend on the requester's login |
| StoreCommands.ExecuteUpdate | server/src/main/java/com/ann/server/commands/Update.java:32-82 | reply and new contents are those of the update function |
| StoreCommands.RemoveByIdOutcome | server/src/main/java/com/ann/server/commands/RemoveById.java:32-72 | success iff a long id is sent, the first element with it is the requester's, and the database deletes it; failure changes nothing |
| StoreCommands.RemoveByIdRemovesOne | server/src/main/java/com/ann/server/commands/RemoveById.java:45-56 | on success exactly one element, equal in fields to the one found by id, is removed |
| StoreCommands.ExecuteRemoveById | server/src/main/java/com/ann/server/commands/RemoveById.java:32-72 | reply and new contents are those of the remove_by_id function |
| StoreCommands.CandidatesThrow | server/src/main/java/com/ann/server/commands/RemoveGreater.java:56-58 | the candidate filter throws iff the collection is non-empty and the pivot's or some element's price is missing |
| StoreCommands.CandidatesExact | server/src/main/java/com/ann/server/commands/RemoveGreater.java:56-58 | the candidates are exactly the elements strictly beyond the pivot, with their multiplicity |
| StoreCommands.CandidatesBeyond | server/src/main/java/com/ann/server/commands/RemoveLower.java:56-58 | every candidate compares strictly beyond the pivot |
| StoreCommands.CandidatesCount | server/src/main/java/com/ann/server/commands/RemoveGreater.java:56-58 | there are no more candidates than elements |
| StoreCommands.RemoveEachCount | server/src/main/java/com/ann/server/commands/RemoveGreater.java:61-68 | the removed count is at most the number of candidates |
| StoreCommands.StoreRemoveSpares | server/src/main/java/com/ann/server/managers/ProductCollectionManager.java:123-139 | a remove keeps every element that is not the requester's and equal to the argument |
| StoreCommands.RemoveEachSpares | server/src/main/java/com/ann/server/commands/RemoveGreater.java:61-68 | elements equal to no candidate owned by the requester survive the loop |
| StoreCommands.RemoveEachStops | server/src/main/java/com/ann/server/commands/RemoveLower.java:61-68 | an exception ends the loop: later candidates are not removed |
| StoreCommands.RemoveBeyondEmpty | server/src/main/java/com/ann/server/commands/RemoveGreater.java:36-53 | an empty collection reports 0 removed, with success |
| StoreCommands.StoreRemoveConfirmed | server/src/main/java/com/ann/server/managers/ProductCollectionManager.java:123-139 | the requester's own record with an id and a confirmed delete, whose fields still occur, is removed with true, moving one occurrence of its fields from the contents to what is gone |
| StoreCommands.StoreRemoveUnconfirmed | server/src/main/java/com/ann/server/managers/ProductCollectionManager.java:123-139 | any other record that does not throw gives false and leaves the contents as they were |
| StoreCommands.CandidatesFields | server/src/main/java/com/ann/server/commands/RemoveGreater.java:56-58 | the candidates' fields occur among the collection's fields |
| StoreCommands.ConfirmedInExact | server/src/main/java/com/ann/server/commands/RemoveGreater.java:62-66 | the confirmed candidates are exactly the candidates that pass the owner, id and delete checks, with their multiplicity |
| StoreCommands.RemovableInExact | server/src/main/java/com/ann/server/commands/RemoveGreater.java:56-66 | the removable records are exactly those beyond the pivot that pass the owner, id and delete checks, with their multiplicity |
| StoreCommands.RemovableInAll | server/src/main/java/com/ann/server/commands/RemoveLower.java:56-66 | when every record with given fields is removable, every occurrence of those fields is removable |
| StoreCommands.CandidatesConfirmed | server/src/main/java/com/ann/server/commands/RemoveGreater.java:56-66 | the confirmed candidates of the sorted collection are, as a multiset, the collection's removable records |
| StoreCommands.RemoveEachExact | server/src/main/java/com/ann/server/commands/RemoveGreater.java:61-68 | with candidates drawn from the contents, the count is the number of confirmed candidates, and the records taken out have exactly their fields |
| StoreCommands.RemoveEachCanSpareConfirmed | server/src/main/java/com/ann/server/commands/RemoveGreater.java:61-68 | a confirmed candidate can survive: removal by equal fields takes the requester's twin whose delete failed instead |
| StoreCommands.RemoveBeyondRemoves | server/src/main/java/com/ann/server/commands/RemoveGreater.java:46-69 | success reports exactly the number of removable records (the requester's own, beyond the pivot, with an id and a confirmed delete); that many records leave the collection, and their fields are exactly the removable records' fields |
| StoreCommands.RemoveBeyondTakesTwins | server/src/main/java/com/ann/server/commands/RemoveLower.java:46-69 | after success no record with x's fields is left when every record with those fields is removable |
| StoreCommands.RemoveBeyondContract | server/src/main/java/com/ann/server/commands/RemoveLower.java:29-70 | success reports a count no larger than the collection; elements not beyond the pivot survive, as do those equal to none of the requester's |
| StoreCommands.RemoveBeyond | server/src/main/java/com/ann/server/commands/RemoveGreater.java:46-70 | the loop's count and the store's new contents are those of removing the candidates one by one |
| StoreCommands.ExecuteRemoveBeyond | server/src/main/java/com/ann/server/commands/RemoveLower.java:29-70 | reply and new contents are those of remove_greater or remove_lower |
| StoreCommands.ClearContract | server/src/main/java/com/ann/server/commands/Clear.java:25-35 | data gives the usage failure with nothing removed; otherwise exactly the requester's records go and the reply is success; a null login throws on a non-empty collection |
| StoreCommands.ExecuteClear | server/src/main/java/com/ann/server/commands/Clear.java:25-35 | reply and new contents are those of the clear function |
| QueryCommands.PriceSumExact | server/src/main/java/com/ann/server/commands/SumOfPrice.java:48-52 | the sum exists iff every price is present; it is the `int` wrap of the exact sum; a missing price throws NullPointerException |
| QueryCommands.SumOfPriceContract | server/src/main/java/com/ann/server/commands/SumOfPrice.java:27-46 | a zero sum is reported as an empty collection, any other as success with the sum |
| QueryCommands.SumOfPriceEmpty | server/src/main/java/com/ann/server/commands/SumOfPrice.java:33-36 | an empty collection gives "Коллекция пуста!" |
| QueryCommands.SumOfPriceWrapsToEmpty | server/src/main/java/com/ann/server/commands/SumOfPrice.java:48-51 | prices whose sum overflows to 0 are reported as an empty collection |
| QueryCommands.JoinFive | server/src/main/java/com/ann/server/commands/Info.java:39-51 | the five info lines are joined with the separator between them |
| QueryCommands.TimeTextOneLine | server/src/main/java/com/ann/server/commands/Info.java:31-37 | a timestamp or its placeholder is one line |
| QueryCommands.NumberOneLine | server/src/main/java/com/ann/server/commands/Info.java:39-51 | the element count is one line |
| QueryCommands.InfoLinesOneLine | server/src/main/java/com/ann/server/commands/Info.java:39-51 | none of the five info lines contains a newline |
| QueryCommands.InfoContract | server/src/main/java/com/ann/server/commands/Info.java:26-52 | without data, success whose message splits back into exactly the header, type, count, save and init lines |
| QueryCommands.ExecuteInfo | server/src/main/java/com/ann/server/commands/Info.java:26-52 | the reply is built from the store's type, size and timestamps |
| QueryCommands.HelpResult | server/src/main/java/com/ann/server/commands/Help.java:24-30 | success iff no data, then the registry listing; otherwise the usage failure |
| QueryCommands.ExitResult | server/src/main/java/com/ann/server/commands/Exit.java:25-40 | success "Программа завершена" iff no data, else the wrong-count failure |
| ShowCommand.Row | server/src/main/java/com/ann/server/commands/Show.java:93-103 | a row has one cell per header: id, the six fields, the owner |
| ShowCommand.Rows | server/src/main/java/com/ann/server/commands/Show.java:44-60 | one row per element, in collection order |
| ShowCommand.Widths | server/src/main/java/com/ann/server/commands/Show.java:114-130 | one width per header |
| ShowCommand.WidthIsMax | server/src/main/java/com/ann/server/commands/Show.java:114-130 | a width is at least the header and every cell of its column, and equals one of them |
| ShowCommand.Separator | server/src/main/java/com/ann/server/commands/Show.java:153-159 | one cell per column, made of exactly that column's width of dashes |
| ShowCommand.CellsFit | server/src/main/java/com/ann/server/commands/Show.java:139-145 | cells no wider than their columns print to the total width |
| ShowCommand.TableAligned | server/src/main/java/com/ann/server/commands/Show.java:44-60 | header, separator and every row print to the same width |
| ShowCommand.WidthsCover | server/src/main/java/com/ann/server/commands/Show.java:114-130 | the widths cover the headers and every cell of a row |
| ShowCommand.ShowContract | server/src/main/java/com/ann/server/commands/Show.java:33-73 | data gives the usage failure; an empty collection "Коллекция пуста."; a missing owner escapes; otherwise success |
| ShowCommand.ColumnWidths | server/src/main/java/com/ann/server/commands/Show.java:114-130 | the array loop computes the widths, failing iff some owner is missing |
| ShowCommand.Widen | server/src/main/java/com/ann/server/commands/Show.java:120-128 | one row raises each width to cover its cell |
| ShowCommand.FormatRowOf | server/src/main/java/com/ann/server/commands/Show.java:139-145 | the builder loop yields the padded, trimmed row |
| ShowCommand.SeparatorOf | server/src/main/java/com/ann/server/commands/Show.java:153-159 | the array loop yields the separator cells |
| ShowCommand.LinesSnoc | server/src/main/java/com/ann/server/commands/Show.java:50-57 | one more row adds its formatted line and a newline |
| ShowCommand.RowLineOf | server/src/main/java/com/ann/server/commands/Show.java:50-57 | an element's line is its formatted row |
| ShowCommand.LinesOf | server/src/main/java/com/ann/server/commands/Show.java:50-57 | the loop over elements yields one line per element, in order |
| ShowCommand.ExecuteShow | server/src/main/java/com/ann/server/commands/Show.java:33-73 | the reply is that of the show function on the store's contents |
| UserCommands.RegisterContract | server/src/main/java/com/ann/server/commands/Register.java:34-65 | success iff login and password are present, the login is under 50, the password at least 8, no user id, the insert gives an id and the user is valid; the stored user carries the hash, salt, date and that id |
| UserCommands.RegisterChecksBeforeInsert | server/src/main/java/com/ann/server/commands/Register.java:36-42 | a bad length or an existing user id fails before anything is stored |
| UserCommands.RegisterCheckOrder | server/src/main/java/com/ann/server/commands/Register.java:36-40 | the login length is checked before the password is touched; a missing login, or a missing password after a short enough login, is a NullPointerException |
| UserCommands.RegisterStoresBeforeValidating | server/src/main/java/com/ann/server/commands/Register.java:48-55 | a user with a short salt is stored yet the reply is the not-valid failure |
| UserCommands.LoginContract | server/src/main/java/com/ann/server/commands/Login.java:25-49 | success iff the password verifies and the lookup finds a user with an id; a failed check gives "Invalid username or password" |
| UserCommands.FindUser | server/src/main/java/com/ann/server/commands/Login.java:34-38 | the looked-up user is in the table with that name, or none has it |
| UserCommands.FindUserAppend | server/src/main/java/com/ann/server/commands/Register.java:48-52 | a user added under a fresh name is found by that name |
| UserCommands.TableVerify | server/src/main/java/com/ann/server/data/UserDAO.java:218-236 | no user under the name gives false; a user with no stored hash throws NullPointerException; true only for a user of that name whose hash equals the password hashed with its salt |
| UserCommands.TableVerifyNullPassword | server/src/main/java/com/ann/server/utility/PasswordHashing.java:34-38 | a missing password is hashed as the text "null": it checks like the password "null" and does not throw when the stored hash is present |
| UserCommands.RegisterThenLogin | server/src/main/java/com/ann/server/commands/Login.java:25-49 | after a successful register, logging in with the same credentials succeeds and returns the login |
| Registry.EntriesExact | general/src/main/java/com/general/managers/CommandManager.java:52-60 | the listing holds one entry per registered name, and no other |
| Registry.EntriesCount | general/src/main/java/com/general/managers/CommandManager.java:52-60 | with names visited once, the listing has one line per visited registered name |
| Registry.EntriesPerCommand | general/src/main/java/com/general/managers/CommandManager.java:52-60 | visiting each key once, the listing has exactly one line per registered command |
| Registry.NameFits | general/src/main/java/com/general/managers/CommandManager.java:57 | every command's name fits the 35-column field |
| Registry.LineColumns | general/src/main/java/com/general/managers/CommandManager.java:57 | a listing line is a space, the name padded to 35 columns, the description and a newline |
| Registry.ReadOnlyCommands | server/src/main/java/com/ann/server/main/Main.java:56-80 | help, info, show, sum_of_price, register, login, execute_script and exit leave the collection unchanged |
| Registry.HandleContract | general/src/main/java/com/general/managers/CommandManager.java:44-50 | an unknown name gets the not-found failure and changes nothing; a known one gets its command's reply |
| Registry.HandleAfterRegister | general/src/main/java/com/general/managers/CommandManager.java:25-27 | after register(n, c), n answers with c, and other names other than help answer as before |
| Registry.EntriesSnoc | general/src/main/java/com/general/managers/CommandManager.java:56-58 | one more name in the order adds its entry if registered |
| Registry.ConcatSnoc | general/src/main/java/com/general/managers/CommandManager.java:56-58 | appending a line extends the listing by it |
| Registry.CommandManager.constructor | general/src/main/java/com/general/managers/CommandManager.java:18-19 | the registry and the history start empty |
| Registry.CommandManager.Register | general/src/main/java/com/general/managers/CommandManager.java:25-27 | the name maps to the command; every other mapping is unchanged |
| Registry.CommandManager.AddToHistory | general/src/main/java/com/general/managers/CommandManager.java:36-38 | the history gains exactly one entry at the end |
| Registry.CommandManager.ToString | general/src/main/java/com/general/managers/CommandManager.java:52-60 | the loop builds the listing of the registered commands |
| Registry.CommandManager.Handle | general/src/main/java/com/general/managers/CommandManager.java:44-50 | reply and new store contents are those of handle on the request's current state |
| Registry.InitCommands | server/src/main/java/com/ann/server/main/Main.java:55-82 | the fourteen registrations are added to the registry |
| Registry.ServerCommandNames | server/src/main/java/com/ann/server/main/Main.java:56-80 | the server registers exactly the fourteen names |
| Registry.ExitAndSaveUnregistered | server/src/main/java/com/ann/server/main/Main.java:55-82 | neither exit nor save is registered |
| Registry.ServerLookupsFirst | server/src/main/java/com/ann/server/main/Main.java:56-58 | help, info and show map to their commands |
| Registry.ServerLookupsMiddle | server/src/main/java/com/ann/server/main/Main.java:59-62 | add, update, remove_by_id and clear map to their commands |
| Registry.ServerLookupsLast | server/src/main/java/com/ann/server/main/Main.java:63-80 | the remaining seven names map to their commands |
| Registry.KeyWords | server/src/main/java/com/ann/server/main/Main.java:56-80 | each registered name is the key word of its command's own name |
| Registry.ServerCommandsContract | server/src/main/java/com/ann/server/main/Main.java:56-80 | every registered name maps to the command it names |
| Registry.ExitNeverRegistered | server/src/main/java/com/ann/server/main/Main.java:55-82 | no registered name maps to the exit command |
| Registry.ServerHandles | server/src/main/java/com/ann/server/main/Main.java:69-80 | exit and save get the not-found failure; execute_script answers with no response |
| RequestHandler.OpenCommandsForwarded | server/src/main/java/com/ann/server/network/Handler.java:69-94 | help, register and login are always dispatched, with no user id attached |
| RequestHandler.GuardedCommands | server/src/main/java/com/ann/server/network/Handler.java:69-101 | any other command is dispatched iff the login finds a user whose password verifies, with that user's id; otherwise unauthorized or invalid request |
| RequestHandler.ExitOnServer | server/src/main/java/com/ann/server/network/Handler.java:62-67 | exit closes the connection without a response, its save fails, and nothing changes |
| RequestHandler.SaveRefused | server/src/main/java/com/ann/server/network/Handler.java:87-96 | a save request gets a failure response and changes nothing |
| RequestHandler.RunContract | server/src/main/java/com/ann/server/network/Handler.java:57-111 | a rejection is written as is; a dispatch writes the command's reply or the invalid-request answer for an escape; an undecodable request gets the invalid-request answer |
| RequestHandler.Run | server/src/main/java/com/ann/server/network/Handler.java:57-96 | output and new store contents are those of the decision and dispatch on the decoded request |
| ClientRunner.SplitLimit | client/src/main/java/com/client/runtime/Runner.java:208 | `split` with a limit gives between one and limit pieces, none but the last containing the separator |
| ClientRunner.SplitLimitJoin | client/src/main/java/com/client/runtime/Runner.java:57 | joining the limited split gives back the input |
| ClientRunner.SplitLimitCount | client/src/main/java/com/client/runtime/Runner.java:208 | the number of pieces is the separator count plus one, capped at the limit |
| ClientRunner.Cut | client/src/main/java/com/client/runtime/Runner.java:57-58 | the argument is trimmed |
| ClientRunner.Tokenize | client/src/main/java/com/client/runtime/Runner.java:57-58 | a line becomes a command name and a trimmed argument |
| ClientRunner.TokenizeContract | client/src/main/java/com/client/runtime/Runner.java:57-58 | the name is the trimmed line up to its first space and has no space; the argument is the trimmed rest, empty iff there is no space |
| ClientRunner.CutContract | client/src/main/java/com/client/runtime/Runner.java:99-100 | the same cut for a line already trimmed, as in script mode |
| ClientRunner.EchoRoundTrip | client/src/main/java/com/client/runtime/Runner.java:102 | the echoed line tokenizes back to the same command |
| ClientRunner.EchoCut | client/src/main/java/com/client/runtime/Runner.java:99-102 | cutting the trimmed echo of a tokenized command gives it back |
| ClientRunner.CredentialWords | client/src/main/java/com/client/runtime/Runner.java:208-214 | when the limited split has two pieces, the unlimited split gives the same two |
| ClientRunner.ProductArguments | client/src/main/java/com/client/runtime/Runner.java:156-165 | add, add_if_min, remove_greater and remove_lower with an argument are refused; without one they build and send a product |
| ClientRunner.IdArguments | client/src/main/java/com/client/runtime/Runner.java:171-198 | update and remove_by_id are refused iff the argument does not parse as a long; otherwise they send that id |
| ClientRunner.PrintedIdAccepted | client/src/main/java/com/client/runtime/Runner.java:188-193 | remove_by_id with any printed `long` sends that id |
| ClientRunner.CredentialArguments | client/src/main/java/com/client/runtime/Runner.java:206-220 | register and login send credentials iff the argument has exactly one space; login and password are the non-empty words around it |
| ClientRunner.CredentialSplit | client/src/main/java/com/client/runtime/Runner.java:208-217 | the same, stated on the credential rule itself |
| ClientRunner.ActionCodes | client/src/main/java/com/client/runtime/Runner.java:141-234 | EXIT iff the name is exit; ERROR iff a plain command's reply fails; nothing is sent iff skipped, exit, refused, history or the form fails; an empty name is skipped |
| ClientRunner.UpdateSendsTypedId | client/src/main/java/com/client/runtime/Runner.java:171-179 | update sends the built product carrying the typed id |
| ClientRunner.Form | client/src/main/java/com/client/runtime/Runner.java:156-169 | the form reads no more lines than remain, and all of them when it runs out of input |
| ClientRunner.LinesRead | client/src/main/java/com/client/runtime/Runner.java:156-187 | only a command that goes to the form reads lines after it, never more than remain |
| ClientRunner.NextLine | client/src/main/java/com/client/runtime/Runner.java:97-109 | reading resumes after the command and the lines its form read, within the input |
| ClientRunner.Commands | client/src/main/java/com/client/runtime/Runner.java:57-58 | each line tokenized as a command, each argument trimmed; the loops launch only the lines no form read |
| ClientRunner.CommandAt | client/src/main/java/com/client/runtime/Runner.java:57-58 | the k-th command is the tokenized k-th line |
| ClientRunner.TokensAreCommands | client/src/main/java/com/client/runtime/Runner.java:92 | a file has a token iff some of its lines has a command name |
| ClientRunner.NextCommand | client/src/main/java/com/client/runtime/Runner.java:98-101 | the inner loop skips lines with an empty name, stopping at the last line |
| ClientRunner.Opened | client/src/main/java/com/client/runtime/Runner.java:88-91 | the path as given or with "../" in front; nothing iff neither exists |
| ClientRunner.EnteredHas | client/src/main/java/com/client/runtime/Runner.java:103-106 | a script is on the stack iff it is among the entered ones |
| ClientRunner.PendingShrinks | client/src/main/java/com/client/runtime/Runner.java:87 | pushing a script not on the stack leaves fewer scripts that may still be entered |
| ClientRunner.ScriptNotRun | client/src/main/java/com/client/runtime/Runner.java:120-134 | a missing file or one without a token gives ERROR |
| ClientRunner.ScriptRun | client/src/main/java/com/client/runtime/Runner.java:87-118 | otherwise the script runs its lines with itself pushed on the stack |
| ClientRunner.RunLinesStep | client/src/main/java/com/client/runtime/Runner.java:97-124 | one step: a recursive call is ERROR; a form that runs out of input is ERROR, as the catch of NoSuchElementException returns it; OK continues while lines remain; any other code ends the script |
| ClientRunner.FormLinesSkipped | client/src/main/java/com/client/runtime/Runner.java:93-124 | after a command that goes to the form, the script resumes past the lines the form read, so they are never launched; a form that runs out ends the script with ERROR |
| ClientRunner.FormRunOutIsLastTurn | client/src/main/java/com/client/runtime/Runner.java:55-68 | at the prompt a form that runs out has read every line left: its command is the last turn, and the end-of-input save follows |
| ClientRunner.RecursionRefused | client/src/main/java/com/client/runtime/Runner.java:103-106 | execute_script of a script on the stack gives ERROR |
| ClientRunner.ExitInScript | client/src/main/java/com/client/runtime/Runner.java:146-152 | exit inside a script ends it with EXIT |
| ClientRunner.ScriptStopsAtFailure | client/src/main/java/com/client/runtime/Runner.java:108-109 | a command that does not return OK ends the script with its code |
| ClientRunner.SelfCallRefused | client/src/main/java/com/client/runtime/Runner.java:103-106 | a script that calls itself ends with ERROR |
| ClientRunner.Names | client/src/main/java/com/client/runtime/Runner.java:60 | the history of n turns has n names |
| ClientRunner.PromptCodes | client/src/main/java/com/client/runtime/Runner.java:61 | one code per command launched from the prompt |
| ClientRunner.PromptCodeAt | client/src/main/java/com/client/runtime/Runner.java:61 | the k-th code is the launch code of the k-th command with no script running |
| ClientRunner.SessionStalls | client/src/main/java/com/client/runtime/Runner.java:62-69 | the loop never ends iff no command returns EXIT and the final save is not OK |
| ClientRunner.SessionEndsAtExit | client/src/main/java/com/client/runtime/Runner.java:54-69 | the loop ends just after the first EXIT, or at end of input |
| ClientRunner.SaveCode | client/src/main/java/com/client/runtime/Runner.java:221-224 | save from the prompt is OK iff the server's reply succeeds |
| ClientRunner.Turns | client/src/main/java/com/client/runtime/Runner.java:54-61 | the commands the loop reads are at most the lines, each with a trimmed argument |
| ClientRunner.TurnAhead | client/src/main/java/com/client/runtime/Runner.java:57-61 | the turns from a line are its command, then the turns after the lines its form read |
| ClientRunner.TurnsWithoutForms | client/src/main/java/com/client/runtime/Runner.java:54-61 | when no form reads a line, every line is one turn |
| ClientRunner.Runner.constructor | client/src/main/java/com/client/runtime/Runner.java:31-43 | history and script stack start empty |
| ClientRunner.Runner.Launch | client/src/main/java/com/client/runtime/Runner.java:141-234 | the code is that of the launch function, the lines read are the form's, the flag says whether the form ran out of input, and the stack is restored |
| ClientRunner.Runner.ScriptMode | client/src/main/java/com/client/runtime/Runner.java:84-135 | the code is that of the script function; the pushed path is popped on every exit, so the stack is as before |
| ClientRunner.Runner.RunScript | client/src/main/java/com/client/runtime/Runner.java:97-109 | the do-while loop's code is that of running the script's lines |
| ClientRunner.Runner.ScriptStep | client/src/main/java/com/client/runtime/Runner.java:98-124 | one pass finds the next command and either continues after the lines its form read or ends with its code, or with ERROR when its form ran out of input |
| ClientRunner.Runner.Interactive | client/src/main/java/com/client/runtime/Runner.java:48-76 | the session is the outcome of the prompt codes of the commands read, skipping form lines, and of the final save; the history gains the names of the commands run |
| ClientRunner.Runner.Converse | client/src/main/java/com/client/runtime/Runner.java:54-69 | the loop's session and history are those of the commands read, past the lines each form read |
| ClientRunner.Runner.Turn | client/src/main/java/com/client/runtime/Runner.java:57-61 | one turn records the name in the history, returns its prompt code and resumes after the lines its form read |
| ClientRunner.Runner.EndOfInput | client/src/main/java/com/client/runtime/Runner.java:62-67 | at end of input the session ends iff the save is OK |
| ClientRunner.SkipBlank | client/src/main/java/com/client/runtime/Runner.java:98-101 | the skipping loop finds the next command |
| ClientServer.SaveNeverOk | server/src/main/java/com/ann/server/main/Main.java:55-82 | against this server, the client's save never returns OK |
| ClientServer.EndOfInputStalls | client/src/main/java/com/client/runtime/Runner.java:54-69 | input without exit that runs out leaves the loop stalled, since the save is not OK |

## Left out

- Concurrency and transport are not modelled: the `ReentrantLock` in the store, the NIO selector and thread pools, and TCP reading and writing. Each operation is modelled as one sequential step.
- The database (`ProductDAO`, `UserDAO`), password hashing, `LocalDateTime.now()` and Java serialization of requests and responses are not modelled. The first three are function parameters; serialization has no format to model.
- Iteration order of the `PriorityQueue` is not modelled. The store is a list in name order, as `sortCollection` leaves it. The JDK would re-heap it by price, so contracts that matter are stated over contents (multisets), not order.
- Collection.AddThrows: says when a queue add throws from the prices alone, without the heap's shape. Which pairs `siftUp` compares depends on the heap order; the predicate is exact only under the store invariant (a queue of two or more elements is fully priced), which every store method keeps.
- Collection.ProductCollectionManager.constructor: requires every loaded product to have a price. `ProductDAO.mapResultSetToProduct` reads the price with `getInt` (ProductDAO.java:218), which gives 0 for a missing value.
- Float coordinates are `real`. `Models.ValidCoordinates` states `Coordinates.validate` as y above -519 over the reals; float rounding near the bound is not modelled.
- Date and time rendering in `info` and the field texts of `show` are inputs, not computed.
- Logging, console output, the echo print in script mode, the "check the script" hint and the exit command's console message are not modelled.
- Exception messages of the JVM's own exceptions (NullPointerException, ClassCastException) are taken to be null.
- The registry's `HashMap` iteration order is a parameter of the help listing.
- Client forms (`ProductForm` and the others): their prompts, retries and field parsing are not modelled. A form is a parameter that, given the command name and the unread lines, says how it ended (a product, given up through an exception `launchCommand` catches, or out of input) and how many lines it read.
- ClientRunner.Form: a form that runs out of input is one whose `nextLine` throws `NoSuchElementException` outside its own try (OrganizationForm.java:31,36). `askPrice` catches that exception itself and asks again (ProductForm.java:93-94), so at the end of input it loops for ever; the form parameter always ends, and such a form is taken to run out.
- `Interrogator`'s scanner and mode are restored only on the normal exit of `scriptMode` (Runner.java:111-112), not in its `finally` block. After a recursion refusal or a form that runs out of input inside a script, later forms would still read from the closed script scanner; this is not modelled.
- `Scanner` line splitting is not modelled: input is given as lines. "Blank" means a character at or below space, as `String.trim` uses. ClientRunner.HasToken uses the same test for `Scanner.hasNext`, which splits on `Character.isWhitespace`; the two differ for control characters that are not whitespace and for Unicode spaces above U+0020.
- Registry.Line: ends each listing line with "\n", where `%n` gives the platform's line separator.
- `TCPClient`'s stored credentials, reconnects and `sendRequest` for exit are not modelled. `IllegalStateException` and `System.exit` are not modelled.
- Only ASCII digits are modelled for `Long.parseLong`.
- Strings are sequences of Unicode characters. Java's `String.length`, `compareTo` and `String.format` widths count UTF-16 code units, so for characters outside the Basic Multilingual Plane the length checks, the name order and the column widths of `show` and `help` can differ from the model.
- ClientRunner.Runner.Launch: requires that an execute_script argument is not already on the script stack. Every caller in the source checks this before launching.
- ClientRunner.Runner.Interactive: takes each line's command from the lines tokenized up front; only the lines the loop reaches are run. Tokenizing has no effects, so the order of effects is unchanged.
- Registry.LineColumns: requires a non-empty description, which every command of the server has.
- ClientServer.EndOfInputStalls: takes the failed save as a precondition. ClientServer.SaveNeverOk establishes it for a client talking to this server.
- The clear and update commands change memory only, as the code does; persisting them is not modelled.
- StoreCommands.AddZeroIdStoredButRefused: requires that the queue add does not throw; when it throws, nothing is stored (StoreCommands.AddStoresOwnedProduct).
- Collection.NameLeq, Collection.SortByName, Collection.ProductCollectionManager.SortCollection: a missing name sorts first, where `Comparator.comparing(Product::getName)` would throw. Names are `NOT NULL` in the products table (ProductDAO.java:27), so stored products always have one.

# Expense tracker: verified model of the list, its persistence and the argument parser

This project models the core of a small Rust command-line expense tracker in Dafny:

- **The expense list** (`src/models.rs`). An `ExpenseList` holds an ordered vector of `Expense` records and a `next_id` counter. `append` refuses negative amounts. Otherwise it pushes a record stamped with the current counter and increments the counter. `last` returns the final entry or `ExpenseNotFound`. In `models.dfy`, `ExpenseList` is a class with fields `list` and `nextId`. `Append` updates them in place. The value of the struct (`ListState`) and the effect of one append (`AppendTo`) are functions, and the invariants are proved about them: identifiers are below the counter and pairwise distinct, amounts are non-negative, and N appends to a new list give identifiers 0..N-1 with `nextId == N`.
- **The repository** (`src/expense_repository.rs`). It loads the list from `expenses.json`, appends to it and writes it back. In `expense_repository.dfy` the backing file is the field `file: Option<string>`, where `None` means the read fails. serde_json is the pair of functions in `Serde`, and the model does not look inside them. Whether the storage accepts a write is the constant `acceptsWrites`. What each operation returns and which file it leaves behind are stated as functions (`LoadResult`/`FileAfterLoad`, `WriteEffect`, `CreateEffect`). The methods of `Repository` are proved against those functions, and the error and durability properties are lemmas about them.
- **Argument parsing** (`src/main.rs`, `map_action` and `map_add_action`). These are pure functions over the argument vector, in `command_line.dfy`. `int_parse.dfy` models Rust's `str::parse::<i32>`: an optional sign, one or more ASCII digits, and a value within the 32-bit range.

Rust's `u32` and `i32` are the subset types `Models.U32` and `Models.I32`. This makes the `next_id += 1` overflow visible as a precondition.

## Model

| member | source | states |
|---|---|---|
| Models.AppendTo | src/models.rs:43-50 | a negative amount gives `NegativeAmount`; otherwise exactly one entry `Expense(old next_id, date, description, amount)` is added at the end, earlier entries are unchanged, and the counter goes up by one |
| Models.AppendToKeepsWellFormed | src/models.rs:43-49 | an accepted append keeps the invariants: every id is below `next_id`, ids are distinct, amounts are non-negative |
| Models.AppendAll | src/models.rs:43-49 | a sequence of append calls, applied in order, never decreases the counter and raises it by at most one per call |
| Models.AppendAllKeepsWellFormed | src/models.rs:43-49 | any sequence of appends keeps the invariants |
| Models.AppendsFromEmpty | src/models.rs:39-49 | after N accepted appends to `new()`, there are N entries, entry k has id k and the k-th request's data, and `next_id == N` |
| Models.ExpenseList.constructor | src/models.rs:39-41 | `new()` has no entries and `next_id == 0`, and satisfies the invariants |
| Models.ExpenseList.FromState | src/models.rs:32-36 | the struct that deserialization builds holds exactly the decoded value |
| Models.ExpenseList.Append | src/models.rs:43-50 | a negative amount returns `Err(NegativeAmount)` and leaves `list` and `next_id` unchanged; on success the new value is `AppendTo` of the old one, `Last()` is the new entry with the old `next_id`, and the invariants are preserved |
| Models.ExpenseList.Last | src/models.rs:52-57 | `Err(ExpenseNotFound)` exactly when the list is empty; otherwise the entry at position len-1 |
| Int32Text.ParseI32 | src/main.rs:61-64 | a parsed value comes from non-empty text whose characters after the first are digits, and its sign follows the leading `-` |
| Int32Text.ParseFormatRoundTrip | src/main.rs:61-64 | every `i32`, negative ones included, parses back from its decimal form |
| Int32Text.ParseRejectsStrayCharacter | src/main.rs:61-64 | a non-digit anywhere, except a leading sign, makes parsing fail |
| Int32Text.ParseRejectsOverflow | src/main.rs:61-64 | digits whose value is above `i32::MAX` are refused bare or after `+`, and above 2^31 after `-`, leading zeros included |
| Int32Text.ParseRejectsEmptyOrLoneSign | src/main.rs:61-64 | empty text, `"+"` and `"-"` are refused |
| Int32Text.ParseSignedDigits | src/main.rs:61-64 | accepted text parses to its digits' value, negated after `-`; a leading `+` changes nothing |
| Int32Text.ParseIgnoresLeadingZero | src/main.rs:61-64 | a leading zero, with or without `-`, does not change the parse, so `"007"` reads as 7 |
| CommandLine.Position | src/main.rs:43-46 | the index found holds the element and nothing before it does; `None` exactly when the element is absent |
| CommandLine.PositionIsFirst | src/main.rs:43-55 | the first occurrence of a flag is the one `position` finds |
| CommandLine.MapAddAction | src/main.rs:42-67 | success yields an `Add`; a missing `--description` or `--amount` gives `ArgumentNotFound`; `UnknowAction` never comes from here |
| CommandLine.MapAction | src/main.rs:32-40 | needs two arguments; `"list"` gives `List` whatever follows; `"add"` defers to `map_add_action`; any other word gives `UnknowAction`, and exactly those words do; only `Add` or `List` is produced |
| CommandLine.DescriptionFollowsFirstFlag | src/main.rs:43-50 | a `--description` that is the last element gives `ArgumentNotFound`; otherwise the description is the element right after its first occurrence |
| CommandLine.AmountFollowsFirstFlag | src/main.rs:52-66 | once the description is found: `--amount` last gives `ArgumentNotFound`, an unparsable next element gives `ArgumentInvalid`, otherwise `Add(description, parsed amount)` |
| CommandLine.DescriptionErrorsComeFirst | src/main.rs:43-59 | a missing description gives `ArgumentNotFound` whatever the amount is |
| CommandLine.NegativeAmountIsAccepted | src/main.rs:61-66 | a negative amount passes the parser unchanged |
| CommandLine.AddCommandExample | src/main.rs:32-66 | `add --description coffee --amount -5` gives `Add("coffee", -5)` |
| ExpenseRepository.DecodeExpenses | src/expense_repository.rs:25-34 | empty text gives a new list (`next_id == 0`) for any decoder; non-empty text the decoder rejects gives `FailToDecodeFile`, the only possible error |
| ExpenseRepository.EncodeExpenses | src/expense_repository.rs:36-41 | fails with `FailToEncodeExpenses` exactly when serde fails, and otherwise returns serde's text |
| ExpenseRepository.LoadResult | src/expense_repository.rs:12-23 | any read failure gives a new list; the only load error is `FailToDecodeFile`, and it needs a readable file |
| ExpenseRepository.FileAfterLoad | src/expense_repository.rs:13-20 | after a load the file exists; a file that was read stays as it was |
| ExpenseRepository.LoadIsStable | src/expense_repository.rs:13-28 | a load right after a load, including after the auto-create, returns the same result and leaves the same file |
| ExpenseRepository.WriteEffect | src/expense_repository.rs:43-49 | an encode failure gives `FailToEncodeExpenses` and a refused write gives `FailToWriteExpensesInFile`, both leaving the file as it was; on success the file holds exactly the encoded list |
| ExpenseRepository.CreateEffect | src/expense_repository.rs:51-69 | never `FailToCreateExpense(ExpenseNotFound)`; on any failure the file is at most auto-created; on success the list loaded, the amount accepted, the storage writable and the file holds the encoding of the loaded list plus the new entry |
| ExpenseRepository.CreateIsWriteAfterAppend | src/expense_repository.rs:51-63 | after a good load and an accepted amount, create is `write_expense` on the appended list over the file the load left: encode and write errors pass through unwrapped, success exactly when encoding works and storage takes the write |
| ExpenseRepository.CreateRefusesNegativeAmount | src/expense_repository.rs:51-67 | after a successful load, a negative amount gives `FailToCreateExpense(NegativeAmount)` and nothing is written |
| ExpenseRepository.CreatePropagatesLoadError | src/expense_repository.rs:51-52 | a load error comes back unchanged, before the amount is considered, and the file is untouched |
| ExpenseRepository.CreateIsSeenByNextLoad | src/expense_repository.rs:51-63 | if serde reads back what it writes, the next load after a successful create returns the loaded list plus the new entry |
| ExpenseRepository.TwoCreatesFromNoFile | src/expense_repository.rs:12-63 | two creates starting with no backing file leave a file that loads as entries with ids 0 and 1 and `next_id == 2` |
| ExpenseRepository.Repository.OpenOrCreateFile | src/expense_repository.rs:12-23 | returns a fresh list holding `LoadResult` of the old file, or its error, and leaves `FileAfterLoad` of the old file |
| ExpenseRepository.Repository.WriteExpense | src/expense_repository.rs:43-49 | result and new file are `WriteEffect` of the list's value |
| ExpenseRepository.Repository.CreateExpense | src/expense_repository.rs:51-69 | result and new file are `CreateEffect`; the `last()` failure branch is proved unreachable |
| ExpenseRepository.Repository.ReadExpenses | src/expense_repository.rs:71-74 | returns exactly what `open_or_create_file` returns, with the same effect on the file |

## Left out

- `Utc::now()` in `Expense::new`: the clock reading is the `date` parameter of `Append` and `CreateExpense`. Timestamps are opaque values.
- The file system is reduced to one optional string. `None` covers every failure of `fs::read_to_string`, whether the file is missing or unreadable. Either way `File::create` then leaves an empty file, so an existing file that cannot be read as text (bytes that are not UTF-8, say) is truncated and every stored expense in it is lost; the model shows this as `None` becoming `Some("")`. The file name `expenses.json` is not represented.
- The `expect` panic when `File::create` fails: the model assumes creation succeeds.
- A write that fails part-way (for example, disk full) could leave a truncated file. The model treats every refused write as leaving the file unchanged.
- The internals of serde_json. No JSON round trip is claimed. Lemmas that need one take it as the explicit hypothesis `RoundTrips`.
- Console output is not modelled: the `println!` calls, the identifier `create_expense` prints, `show_expense_list` and its table, and the `Display`/`LocalizedError` messages.
- `main`'s dispatch and its panics, including "Not implemented yet" for `Summary` and `Delete`.
- Models.ExpenseList.Append: requires `next_id < u32::MAX` whenever the amount is accepted. Past that point `next_id += 1` panics in a debug build and wraps to 0 in a release build, and the model does not follow either.
- ExpenseRepository.Repository.CreateExpense: requires the same room in the counter of the list it will load (`HasRoomToAppend`), for the same reason.
- ExpenseRepository.CreateEffect: carries the same requirement.
- CommandLine.MapAction: requires at least two arguments, because `args.get(1).unwrap()` panics otherwise.
- Operations that `src/models.rs` does not define are not part of this model: `first`, `get`, `len`, `is_empty`, `remove`, `summary` and month filtering. `main.rs` calls some of them.
- Serde does not check invariants when it decodes, so a hand-edited file can hold duplicate identifiers, negative amounts or a counter below an identifier. The model keeps this possibility open. Preservation of the invariants is therefore proved conditionally: a list that satisfied them before an append still satisfies them after it.
- `create_expense` prints the new identifier and returns `()`. It does not hand the identifier back to its caller, and the model follows that.

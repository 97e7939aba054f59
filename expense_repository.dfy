/**
  Persistence of the expense list in one backing file (`expenses.json`).
  The file is a single field: `None` when reading it fails (it is missing or
  unreadable), `Some(text)` otherwise. serde_json's `to_string` and
  `from_str` are two functions the model does not look inside; storage that
  refuses writes is a fixed property of the repository.
*/
module ExpenseRepository {
  import opened Results
  import opened Models

  datatype ExpenseRepositoryError =
    | FailToDecodeFile
    | FailToEncodeExpenses
    | FailToWriteExpensesInFile
    | FailToCreateExpense(cause: ExpenseListError)

  /** serde_json as the repository uses it; `None` stands for its error. */
  datatype Serde = Serde(toString: ListState -> Option<string>, fromStr: string -> Option<ListState>)

  /** The text serde writes for `s` is non-empty and reads back as `s`.
      Nothing in the model assumes this; lemmas that need it say so. */
  ghost predicate RoundTrips(serde: Serde, s: ListState)
  {
    serde.toString(s).Some? && serde.toString(s).value != "" && serde.fromStr(serde.toString(s).value) == Some(s)
  }

  /** `decode_expenses`: empty text is a new list and the decoder is not
      consulted; other text is whatever serde makes of it. */
  function DecodeExpenses(serde: Serde, data: string): (r: Result<ListState, ExpenseRepositoryError>)
    ensures data == "" ==> r == Ok(Empty())
    ensures r.Err? ==> r.error == FailToDecodeFile
    ensures data != "" ==> (r.Err? <==> serde.fromStr(data).None?)
    ensures data != "" && r.Ok? ==> r.value == serde.fromStr(data).value
  {
    if data == "" then Ok(Empty())
    else
      match serde.fromStr(data)
      case Some(s) => Ok(s)
      case None => Err(FailToDecodeFile)
  }

  /** `encode_expenses`: serde's text, or `FailToEncodeExpenses`. */
  function EncodeExpenses(serde: Serde, s: ListState): (r: Result<string, ExpenseRepositoryError>)
    ensures r.Err? <==> serde.toString(s).None?
    ensures r.Err? ==> r.error == FailToEncodeExpenses
    ensures r.Ok? ==> r.value == serde.toString(s).value
  {
    match serde.toString(s)
    case Some(text) => Ok(text)
    case None => Err(FailToEncodeExpenses)
  }

  /** What `open_or_create_file` returns for a backing file in state `file`:
      a failed read, whatever its cause, gives a new list. */
  function LoadResult(serde: Serde, file: Option<string>): (r: Result<ListState, ExpenseRepositoryError>)
    ensures file.None? ==> r == Ok(Empty())
    ensures r.Err? ==> r.error == FailToDecodeFile && file.Some?
  {
    match file
    case None => Ok(Empty())
    case Some(data) => DecodeExpenses(serde, data)
  }

  /** The backing file after `open_or_create_file`: a failed read is followed
      by `File::create`, which leaves an empty file. For a file that exists
      but cannot be read as text (bytes that are not UTF-8, say), this
      truncates it and every stored expense is lost. A successful read leaves
      the file alone. */
  function FileAfterLoad(file: Option<string>): (f: Option<string>)
    ensures f.Some?
    ensures file.Some? ==> f == file
  {
    if file.None? then Some("") else file
  }

  /** Loading twice is loading once: the file created by the first load is
      empty and decodes to the same new list. */
  lemma LoadIsStable(serde: Serde, file: Option<string>)
    ensures LoadResult(serde, FileAfterLoad(file)) == LoadResult(serde, file)
    ensures FileAfterLoad(FileAfterLoad(file)) == FileAfterLoad(file)
  {
  }

  /** What an operation returned, and the backing file it left behind. */
  datatype Effect = Effect(result: Result<(), ExpenseRepositoryError>, file: Option<string>)

  /** `write_expense` on the value `s`: encoding happens before any write; the
      file changes only when the write succeeds, and then holds exactly the
      encoded list. */
  function WriteEffect(serde: Serde, acceptsWrites: bool, file: Option<string>, s: ListState): (e: Effect)
    ensures e.result.Ok? <==> EncodeExpenses(serde, s).Ok? && acceptsWrites
    ensures EncodeExpenses(serde, s).Err? ==> e.result == Err(FailToEncodeExpenses)
    ensures EncodeExpenses(serde, s).Ok? && !acceptsWrites ==> e.result == Err(FailToWriteExpensesInFile)
    ensures e.result.Ok? ==> e.file == Some(EncodeExpenses(serde, s).value)
    ensures e.result.Err? ==> e.file == file
  {
    match EncodeExpenses(serde, s)
    case Err(error) => Effect(Err(error), file)
    case Ok(text) =>
      if acceptsWrites then Effect(Ok(()), Some(text)) else Effect(Err(FailToWriteExpensesInFile), file)
  }

  /** The loaded counter has room for one more identifier whenever the amount
      will be accepted (`next_id += 1` overflows otherwise). */
  predicate HasRoomToAppend(serde: Serde, file: Option<string>, amount: I32)
  {
    amount >= 0 && LoadResult(serde, file).Ok? ==> LoadResult(serde, file).value.nextId < U32_MAX
  }

  /** `create_expense`: load, append, write. A load error comes back as it
      is, a refused append comes back wrapped in `FailToCreateExpense`, and
      only a fully successful run replaces the file. */
  function CreateEffect(serde: Serde, acceptsWrites: bool, file: Option<string>,
                        description: string, amount: I32, date: Timestamp): (e: Effect)
    requires HasRoomToAppend(serde, file, amount)
    ensures e.result != Err(FailToCreateExpense(ExpenseNotFound))
    ensures e.result.Err? ==> e.file == FileAfterLoad(file)
    ensures e.result.Ok? ==> LoadResult(serde, file).Ok? && amount >= 0 && acceptsWrites
    ensures e.result.Ok? ==>
      && e.file.Some?
      && EncodeExpenses(serde, AppendTo(LoadResult(serde, file).value, description, amount, date).value) == Ok(e.file.value)
  {
    var loadedFile := FileAfterLoad(file);
    match LoadResult(serde, file)
    case Err(error) => Effect(Err(error), loadedFile)
    case Ok(s) =>
      match AppendTo(s, description, amount, date)
      case Err(error) => Effect(Err(FailToCreateExpense(error)), loadedFile)
      case Ok(appended) => WriteEffect(serde, acceptsWrites, loadedFile, appended)
  }

  /** Once the list has loaded and the amount is accepted, `create_expense`
      is `write_expense` on the appended list, over the file the load left:
      its encode and write errors come back unwrapped, and it succeeds
      exactly when encoding succeeds and the storage takes the write. */
  lemma CreateIsWriteAfterAppend(serde: Serde, acceptsWrites: bool, file: Option<string>,
                                 description: string, amount: I32, date: Timestamp)
    requires LoadResult(serde, file).Ok? && amount >= 0 && LoadResult(serde, file).value.nextId < U32_MAX
    ensures CreateEffect(serde, acceptsWrites, file, description, amount, date)
      == WriteEffect(serde, acceptsWrites, FileAfterLoad(file), AppendTo(LoadResult(serde, file).value, description, amount, date).value)
  {
  }

  /** A negative amount is refused as `FailToCreateExpense(NegativeAmount)`
      once the list has loaded, and nothing is written beyond the empty file
      a failed read creates. */
  lemma CreateRefusesNegativeAmount(serde: Serde, acceptsWrites: bool, file: Option<string>,
                                    description: string, amount: I32, date: Timestamp)
    requires amount < 0 && LoadResult(serde, file).Ok?
    ensures CreateEffect(serde, acceptsWrites, file, description, amount, date)
      == Effect(Err(FailToCreateExpense(NegativeAmount)), FileAfterLoad(file))
  {
  }

  /** A file that does not decode stops `create_expense` before the amount is
      even looked at, and the file stays as it was. */
  lemma CreatePropagatesLoadError(serde: Serde, acceptsWrites: bool, file: Option<string>,
                                  description: string, amount: I32, date: Timestamp)
    requires LoadResult(serde, file).Err?
    ensures CreateEffect(serde, acceptsWrites, file, description, amount, date)
      == Effect(Err(FailToDecodeFile), file)
  {
  }

  /** Durability: when serde reads back what it writes and the storage takes
      the write, the next load after `create_expense` sees the loaded list
      with the new entry appended. */
  lemma CreateIsSeenByNextLoad(serde: Serde, file: Option<string>, s: ListState,
                               description: string, amount: I32, date: Timestamp)
    requires LoadResult(serde, file) == Ok(s) && amount >= 0 && s.nextId < U32_MAX
    requires RoundTrips(serde, AppendTo(s, description, amount, date).value)
    ensures CreateEffect(serde, true, file, description, amount, date).result == Ok(())
    ensures LoadResult(serde, CreateEffect(serde, true, file, description, amount, date).file)
      == Ok(AppendTo(s, description, amount, date).value)
  {
  }

  /** Two runs of `create_expense` starting without a backing file: the
      entries get identifiers 0 and 1 and the counter ends at 2. */
  lemma TwoCreatesFromNoFile(serde: Serde, first: Timestamp, second: Timestamp)
    requires forall s: ListState :: RoundTrips(serde, s)
    ensures var one := CreateEffect(serde, true, None, "coffee", 5, first);
            && one.result == Ok(())
            && LoadResult(serde, one.file).Ok?
            && LoadResult(serde, one.file).value.nextId < U32_MAX
            && var two := CreateEffect(serde, true, one.file, "lunch", 12, second);
               && two.result == Ok(())
               && LoadResult(serde, two.file)
                  == Ok(ListState([Expense(0, first, "coffee", 5), Expense(1, second, "lunch", 12)], 2))
  {
    var s0 := Empty();
    var s1 := AppendTo(s0, "coffee", 5, first).value;
    assert RoundTrips(serde, s1);
    CreateIsSeenByNextLoad(serde, None, s0, "coffee", 5, first);
    var one := CreateEffect(serde, true, None, "coffee", 5, first);
    var s2 := AppendTo(s1, "lunch", 12, second).value;
    assert RoundTrips(serde, s2);
    CreateIsSeenByNextLoad(serde, one.file, s1, "lunch", 12, second);
    assert s2.list == [Expense(0, first, "coffee", 5), Expense(1, second, "lunch", 12)];
  }

  /** The repository: the backing file, serde, and whether the storage takes
      writes. */
  class Repository {
    var file: Option<string>
    const serde: Serde
    const acceptsWrites: bool

    constructor (file: Option<string>, serde: Serde, acceptsWrites: bool)
      ensures this.file == file && this.serde == serde && this.acceptsWrites == acceptsWrites
    {
      this.file := file;
      this.serde := serde;
      this.acceptsWrites := acceptsWrites;
    }

    /** `open_or_create_file`. */
    method OpenOrCreateFile() returns (r: Result<ExpenseList, ExpenseRepositoryError>)
      modifies this
      ensures file == FileAfterLoad(old(file))
      ensures r.Err? <==> LoadResult(serde, old(file)).Err?
      ensures r.Err? ==> r.error == LoadResult(serde, old(file)).error
      ensures r.Ok? ==> fresh(r.value) && r.value.State() == LoadResult(serde, old(file)).value
    {
      if file.None? {
        file := Some("");
        var expenses := new ExpenseList();
        return Ok(expenses);
      }
      var decoded := DecodeExpenses(serde, file.value);
      if decoded.Err? {
        return Err(decoded.error);
      }
      var expenses := new ExpenseList.FromState(decoded.value);
      r := Ok(expenses);
    }

    /** `write_expense`. */
    method WriteExpense(expenses: ExpenseList) returns (r: Result<(), ExpenseRepositoryError>)
      modifies this
      ensures Effect(r, file) == WriteEffect(serde, acceptsWrites, old(file), expenses.State())
    {
      var encoded := EncodeExpenses(serde, expenses.State());
      if encoded.Err? {
        return Err(encoded.error);
      }
      if !acceptsWrites {
        return Err(FailToWriteExpensesInFile);
      }
      file := Some(encoded.value);
      r := Ok(());
    }

    /** `create_expense`; the identifier it prints is left out. */
    method CreateExpense(description: string, amount: I32, date: Timestamp) returns (r: Result<(), ExpenseRepositoryError>)
      requires HasRoomToAppend(serde, file, amount)
      modifies this
      ensures Effect(r, file) == CreateEffect(serde, acceptsWrites, old(file), description, amount, date)
    {
      var loaded := OpenOrCreateFile();
      if loaded.Err? {
        return Err(loaded.error);
      }
      var expenses := loaded.value;
      var appended := expenses.Append(description, amount, date);
      if appended.Err? {
        return Err(FailToCreateExpense(appended.error));
      }
      match expenses.Last()
      case Ok(last) =>
        r := WriteExpense(expenses);
      case Err(error) =>
        assert false;
    }

    /** `read_expenses`: exactly what `open_or_create_file` gives. */
    method ReadExpenses() returns (r: Result<ExpenseList, ExpenseRepositoryError>)
      modifies this
      ensures file == FileAfterLoad(old(file))
      ensures r.Err? <==> LoadResult(serde, old(file)).Err?
      ensures r.Err? ==> r.error == LoadResult(serde, old(file)).error
      ensures r.Ok? ==> fresh(r.value) && r.value.State() == LoadResult(serde, old(file)).value
    {
      r := OpenOrCreateFile();
    }
  }
}

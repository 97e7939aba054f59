/**
  Turning the process arguments into an `Action`. `args[0]` is the program
  name and `args[1]` the action word; the flags of `add` are looked up in the
  whole argument vector.
*/
module CommandLine {
  import opened Results
  import opened Models
  import opened Int32Text

  /** `args.iter().position(|a| a == x)`: the index of the first occurrence. */
  function Position(args: seq<string>, x: string): (r: Option<nat>)
    ensures r.None? <==> x !in args
    ensures r.Some? ==> r.value < |args| && args[r.value] == x && x !in args[..r.value]
  {
    if args == [] then None
    else if args[0] == x then Some(0)
    else
      match Position(args[1..], x)
      case None => None
      case Some(i) =>
        assert args[1..][..i] == args[1..i + 1];
        Some(i + 1)
  }

  /** `i` is where `flag` first occurs in `args`. */
  ghost predicate FirstAt(args: seq<string>, flag: string, i: nat)
  {
    i < |args| && args[i] == flag && flag !in args[..i]
  }

  lemma PositionIsFirst(args: seq<string>, flag: string, i: nat)
    requires FirstAt(args, flag, i)
    ensures Position(args, flag) == Some(i)
  {
  }

  /** `map_add_action`: the element after the first `--description` is the
      description, the element after the first `--amount` is parsed as an
      `i32`. The description is looked up first, so its errors win. */
  function MapAddAction(args: seq<string>): (r: Result<Action, ActionError>)
    ensures r.Ok? ==> r.value.Add?
    ensures r != Err(UnknowAction)
    ensures "--description" !in args ==> r == Err(ArgumentNotFound)
    ensures "--amount" !in args ==> r == Err(ArgumentNotFound)
  {
    match Position(args, "--description")
    case None => Err(ArgumentNotFound)
    case Some(d) =>
      if d + 1 >= |args| then Err(ArgumentNotFound)
      else
        match Position(args, "--amount")
        case None => Err(ArgumentNotFound)
        case Some(a) =>
          if a + 1 >= |args| then Err(ArgumentNotFound)
          else
            match ParseI32(args[a + 1])
            case None => Err(ArgumentInvalid)
            case Some(amount) => Ok(Add(args[d + 1], amount))
  }

  /** `map_action`: dispatch on the action word. Rust's `args.get(1).unwrap()`
      panics on fewer than two arguments, so callers must supply them. */
  function MapAction(args: seq<string>): (r: Result<Action, ActionError>)
    requires |args| >= 2
    ensures args[1] == "list" ==> r == Ok(List)
    ensures args[1] == "add" ==> r == MapAddAction(args)
    ensures r == Err(UnknowAction) <==> args[1] != "add" && args[1] != "list"
    ensures r.Ok? ==> r.value.Add? || r.value.List?
  {
    match args[1]
    case "add" => MapAddAction(args)
    case "list" => Ok(List)
    case _ => Err(UnknowAction)
  }

  /** A `--description` flag with nothing after it is a missing argument,
      whatever follows elsewhere; otherwise the description is the element
      right after the flag's first occurrence. */
  lemma DescriptionFollowsFirstFlag(args: seq<string>, i: nat)
    requires FirstAt(args, "--description", i)
    ensures i + 1 == |args| ==> MapAddAction(args) == Err(ArgumentNotFound)
    ensures MapAddAction(args).Ok? ==> MapAddAction(args).value.description == args[i + 1]
  {
    PositionIsFirst(args, "--description", i);
  }

  /** Once the description is found, the element after the first `--amount`
      decides the outcome: missing, unparsable, or the parsed value. */
  lemma AmountFollowsFirstFlag(args: seq<string>, i: nat, j: nat)
    requires FirstAt(args, "--description", i) && i + 1 < |args|
    requires FirstAt(args, "--amount", j)
    ensures j + 1 == |args| ==> MapAddAction(args) == Err(ArgumentNotFound)
    ensures j + 1 < |args| && ParseI32(args[j + 1]).None? ==> MapAddAction(args) == Err(ArgumentInvalid)
    ensures j + 1 < |args| && ParseI32(args[j + 1]).Some? ==>
      MapAddAction(args) == Ok(Add(args[i + 1], ParseI32(args[j + 1]).value))
  {
    PositionIsFirst(args, "--description", i);
    PositionIsFirst(args, "--amount", j);
  }

  /** An invalid amount is reported only when the description is present:
      a missing description hides every amount problem. */
  lemma DescriptionErrorsComeFirst(args: seq<string>)
    requires "--description" !in args || (args[|args| - 1] == "--description" && "--description" !in args[..|args| - 1])
    ensures MapAddAction(args) == Err(ArgumentNotFound)
  {
    if "--description" in args {
      DescriptionFollowsFirstFlag(args, |args| - 1);
    }
  }

  /** The parser lets negative amounts through unchanged; refusing them is
      left to `ExpenseList::append`. */
  lemma NegativeAmountIsAccepted(args: seq<string>, i: nat, j: nat, amount: I32)
    requires FirstAt(args, "--description", i) && i + 1 < |args|
    requires FirstAt(args, "--amount", j) && j + 1 < |args|
    requires args[j + 1] == FormatI32(amount) && amount < 0
    ensures MapAddAction(args) == Ok(Add(args[i + 1], amount))
  {
    ParseFormatRoundTrip(amount);
    AmountFollowsFirstFlag(args, i, j);
  }

  /** A worked command line: `expenses add --description coffee --amount -5`. */
  lemma AddCommandExample()
    ensures MapAction(["expenses", "add", "--description", "coffee", "--amount", "-5"]) == Ok(Add("coffee", -5))
  {
    var args := ["expenses", "add", "--description", "coffee", "--amount", "-5"];
    assert FirstAt(args, "--description", 2) by { assert args[..2] == ["expenses", "add"]; }
    assert FirstAt(args, "--amount", 4) by { assert args[..4] == ["expenses", "add", "--description", "coffee"]; }
    assert FormatI32(-5) == "-5" by { assert NatDigits(5) == "5"; }
    NegativeAmountIsAccepted(args, 2, 4, -5);
  }
}

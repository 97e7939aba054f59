/**
  The expense data model: one expense record and the `ExpenseList` aggregate
  that stamps each new record with the next identifier.
  Rust's `u32` and `i32` fields are the subset types `U32` and `I32`, so an
  overflow of the identifier counter shows up as a proof obligation.
*/
module Models {
  import opened Results

  const U32_MAX: int := 0xFFFF_FFFF
  const I32_MIN: int := -0x8000_0000
  const I32_MAX: int := 0x7FFF_FFFF

  type U32 = n: int | 0 <= n <= U32_MAX
  type I32 = n: int | I32_MIN <= n <= I32_MAX

  /** A UTC instant (`DateTime<Utc>`); the core only stores it. */
  datatype Timestamp = Timestamp(nanosSinceEpoch: int)

  /** `Expense::new(id, description, amount)` is the constructor below, with
      the clock reading `Utc::now()` passed in as `date`; `Expense::id` is the
      field `id`. */
  datatype Expense = Expense(id: U32, date: Timestamp, description: string, amount: I32)

  datatype ExpenseListError = NegativeAmount | ExpenseNotFound

  /** What the command line asks for. */
  datatype Action = Add(description: string, amount: I32) | List | Summary | Delete(id: I32)

  datatype ActionError = UnknowAction | ArgumentNotFound | ArgumentInvalid

  /** The value held by an `ExpenseList` struct: its entries and its
      identifier counter. This is also exactly what serde reads and writes. */
  datatype ListState = ListState(list: seq<Expense>, nextId: U32)

  /** The value `ExpenseList::new()` builds. */
  function Empty(): ListState
  {
    ListState([], 0)
  }

  /** The aggregate's invariants: every identifier is below the counter,
      identifiers are pairwise distinct and no amount is negative. A list
      built by `new` and `append` keeps them; a decoded list need not. */
  ghost predicate WellFormed(s: ListState)
  {
    && (forall i :: 0 <= i < |s.list| ==> s.list[i].id < s.nextId && s.list[i].amount >= 0)
    && (forall i, j :: 0 <= i < j < |s.list| ==> s.list[i].id != s.list[j].id)
  }

  /** The effect of `append` on the list's value. The counter must have room
      for one more identifier whenever the amount is accepted: `next_id += 1`
      overflows `u32` otherwise. */
  function AppendTo(s: ListState, description: string, amount: I32, date: Timestamp): (r: Result<ListState, ExpenseListError>)
    requires amount < 0 || s.nextId < U32_MAX
    ensures r.Err? <==> amount < 0
    ensures r.Err? ==> r.error == NegativeAmount
    ensures r.Ok? ==> |r.value.list| == |s.list| + 1 && r.value.list[..|s.list|] == s.list
    ensures r.Ok? ==> r.value.list[|s.list|] == Expense(s.nextId, date, description, amount)
    ensures r.Ok? ==> r.value.nextId == s.nextId + 1
  {
    if amount < 0 then Err(NegativeAmount)
    else Ok(ListState(s.list + [Expense(s.nextId, date, description, amount)], s.nextId + 1))
  }

  lemma AppendToKeepsWellFormed(s: ListState, description: string, amount: I32, date: Timestamp)
    requires amount < 0 || s.nextId < U32_MAX
    requires WellFormed(s)
    ensures AppendTo(s, description, amount, date).Ok? ==> WellFormed(AppendTo(s, description, amount, date).value)
  {
    if amount >= 0 {
      var t := AppendTo(s, description, amount, date).value;
      forall i, j | 0 <= i < j < |t.list|
        ensures t.list[i].id != t.list[j].id
      {
        if j < |s.list| {
          assert t.list[i] == s.list[i] && t.list[j] == s.list[j];
        } else {
          assert t.list[i] == s.list[i];
        }
      }
    }
  }

  /** One call of `append`, with its arguments. */
  datatype AppendRequest = AppendRequest(description: string, amount: I32, date: Timestamp)

  /** The value after `append` is called once per request, in order; a
      rejected request leaves the value as it was. */
  function AppendAll(s: ListState, reqs: seq<AppendRequest>): (r: ListState)
    requires s.nextId + |reqs| <= U32_MAX
    ensures s.nextId <= r.nextId <= s.nextId + |reqs|
    decreases |reqs|
  {
    if reqs == [] then s
    else
      var before := AppendAll(s, reqs[..|reqs| - 1]);
      var req := reqs[|reqs| - 1];
      match AppendTo(before, req.description, req.amount, req.date)
      case Ok(after) => after
      case Err(_) => before
  }

  lemma {:induction false} AppendAllKeepsWellFormed(s: ListState, reqs: seq<AppendRequest>)
    requires s.nextId + |reqs| <= U32_MAX
    requires WellFormed(s)
    ensures WellFormed(AppendAll(s, reqs))
  {
    if reqs != [] {
      var req := reqs[|reqs| - 1];
      AppendAllKeepsWellFormed(s, reqs[..|reqs| - 1]);
      AppendToKeepsWellFormed(AppendAll(s, reqs[..|reqs| - 1]), req.description, req.amount, req.date);
    }
  }

  /** After N accepted appends to a new list, the identifiers are 0 .. N-1 in
      insertion order, each entry carries its request's data, and the counter
      is N. */
  lemma {:induction false} AppendsFromEmpty(reqs: seq<AppendRequest>)
    requires |reqs| <= U32_MAX
    requires forall k :: 0 <= k < |reqs| ==> reqs[k].amount >= 0
    ensures |AppendAll(Empty(), reqs).list| == |reqs|
    ensures AppendAll(Empty(), reqs).nextId == |reqs|
    ensures forall k :: 0 <= k < |reqs| ==>
      AppendAll(Empty(), reqs).list[k] == Expense(k, reqs[k].date, reqs[k].description, reqs[k].amount)
  {
    if reqs != [] {
      var prefix := reqs[..|reqs| - 1];
      AppendsFromEmpty(prefix);
      var before := AppendAll(Empty(), prefix);
      var req := reqs[|reqs| - 1];
      assert AppendAll(Empty(), reqs) == AppendTo(before, req.description, req.amount, req.date).value;
      forall k | 0 <= k < |reqs| - 1
        ensures AppendAll(Empty(), reqs).list[k] == Expense(k, reqs[k].date, reqs[k].description, reqs[k].amount)
      {
        assert AppendAll(Empty(), reqs).list[..|before.list|][k] == before.list[k];
        assert prefix[k] == reqs[k];
      }
    }
  }

  /** The `ExpenseList` struct, updated in place by `append`. */
  class ExpenseList {
    var list: seq<Expense>
    var nextId: U32

    /** The struct's current value. */
    function State(): ListState
      reads this
    {
      ListState(list, nextId)
    }

    /** `ExpenseList::new()`: no entries, counter at zero. */
    constructor ()
      ensures list == [] && nextId == 0
      ensures WellFormed(State())
    {
      list := [];
      nextId := 0;
    }

    /** The struct serde's `Deserialize` builds from a decoded value. */
    constructor FromState(s: ListState)
      ensures State() == s
    {
      list := s.list;
      nextId := s.nextId;
    }

    /** `append`: refuses a negative amount without changing anything;
        otherwise pushes a record stamped with the current counter and bumps
        the counter. */
    method Append(description: string, amount: I32, date: Timestamp) returns (r: Result<(), ExpenseListError>)
      requires amount < 0 || nextId < U32_MAX
      modifies this
      ensures r.Err? <==> amount < 0
      ensures r.Err? ==> r.error == NegativeAmount && list == old(list) && nextId == old(nextId)
      ensures r.Ok? ==> State() == AppendTo(old(State()), description, amount, date).value
      ensures r.Ok? ==> Last() == Ok(Expense(old(nextId), date, description, amount))
      ensures WellFormed(old(State())) ==> WellFormed(State())
    {
      if amount < 0 {
        return Err(NegativeAmount);
      }
      if WellFormed(State()) {
        AppendToKeepsWellFormed(State(), description, amount, date);
      }
      list := list + [Expense(nextId, date, description, amount)];
      nextId := nextId + 1;
      r := Ok(());
    }

    /** `last`: the final entry, or `ExpenseNotFound` when there is none. */
    function Last(): (r: Result<Expense, ExpenseListError>)
      reads this
      ensures r.Err? <==> list == []
      ensures r.Err? ==> r.error == ExpenseNotFound
      ensures r.Ok? ==> r.value == list[|list| - 1]
    {
      if list == [] then Err(ExpenseNotFound) else Ok(list[|list| - 1])
    }
  }
}

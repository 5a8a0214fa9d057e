/**
 Reading the rows of a query (src/row.rs) and the statement calls built on it (src/statement.rs).

 An execution of a statement answers its steps with an arbitrary sequence of outcomes. `Rows` gives the
 statement up at the first outcome that is not a row; `Item` says what its `i`-th call returns without
 mentioning any state.
 */
module RowsIteration {
  import opened Wrappers

  datatype Outcome<V, E> = Row(v: V) | Done | Fails(e: E)

  /** `outcome(k)` answers step `k` since the last reset; `onReset(k)` is what a reset after `k` steps
      reports, if it reports an error. */
  datatype Execution<!V, !E> = Execution(outcome: nat -> Outcome<V, E>, onReset: nat -> Option<E>)

  datatype Error<E> =
    | FromSqlite(e: E)
    | QueryReturnedNoRows
    | QueryReturnedMoreThanOneRow
    | ExecuteReturnedResults
    | InvalidParameterCount(given: nat, expected: nat)

  datatype Event = Stepped | Reset

  function Steps(n: nat): seq<Event> {
    seq(n, _ => Stepped)
  }

  predicate AllRows<V, E>(x: Execution<V, E>, n: nat) {
    forall k: nat :: k < n ==> x.outcome(k).Row?
  }

  function Checked<T, E>(onReset: Option<E>, otherwise: T): Result<T, Error<E>> {
    if onReset.Some? then Err(FromSqlite(onReset.value)) else Ok(otherwise)
  }

  /** What call number `i` of `Rows::next` returns. */
  function Item<V, E>(x: Execution<V, E>, i: nat): Result<Option<V>, Error<E>> {
    if !AllRows(x, i) then Ok(None)
    else
      match x.outcome(i)
      case Row(v) => Ok(Some(v))
      case Done => Checked(x.onReset(i + 1), None)
      case Fails(e) => Err(FromSqlite(e))
  }

  /** How many of `n` calls reach SQLite. */
  function StepsMade<V, E>(x: Execution<V, E>, n: nat): nat {
    if n == 0 then 0 else if AllRows(x, n - 1) then n else StepsMade(x, n - 1)
  }

  class Statement<V, E> {
    const x: Execution<V, E>
    /** Steps since the last reset; 0 means ready. */
    var steps: nat
    var log: seq<Event>
    var changes: nat

    constructor (x: Execution<V, E>)
      ensures this.x == x && steps == 0 && log == []
    {
      this.x := x;
      steps, log, changes := 0, [], 0;
    }

    method Step() returns (r: Outcome<V, E>)
      modifies this`steps, this`log
      ensures r == x.outcome(old(steps))
      ensures steps == old(steps) + 1 && log == old(log) + [Stepped]
    {
      r := x.outcome(steps);
      steps, log := steps + 1, log + [Stepped];
    }

    method ResetStatement() returns (r: Option<E>)
      modifies this`steps, this`log
      ensures r == x.onReset(old(steps))
      ensures steps == 0 && log == old(log) + [Reset]
    {
      r := x.onReset(steps);
      steps, log := 0, log + [Reset];
    }

    /** True iff there is a first row; the statement is ready again in any case. */
    method Exists() returns (r: Result<bool, Error<E>>)
      requires steps == 0
      modifies this`steps, this`log
      ensures steps == 0 && log == old(log) + [Stepped, Reset]
      ensures r.Ok? ==> (r.value <==> x.outcome(0).Row?)
      ensures r.Err? <==> x.outcome(0).Fails? || (x.outcome(0).Done? && x.onReset(1).Some?)
      ensures r.Err? ==> r.error == FromSqlite(if x.outcome(0).Fails? then x.outcome(0).e else x.onReset(1).value)
    {
      var rows := new Rows(this);
      var first := rows.Next();
      rows.Drop();
      LogIs(1, log, old(log));
      if first.Err? {
        return Err(first.error);
      }
      return Ok(first.value.Some?);
    }

    /** The first row, mapped; later rows are not looked at. */
    method QueryRow<T>(f: V -> Result<T, Error<E>>) returns (r: Result<T, Error<E>>)
      requires steps == 0
      modifies this`steps, this`log
      ensures steps == 0 && log == old(log) + [Stepped, Reset]
      ensures r == match x.outcome(0)
                   case Row(v) => f(v)
                   case Fails(e) => Err(FromSqlite(e))
                   case Done => Err(if x.onReset(1).Some? then FromSqlite(x.onReset(1).value) else QueryReturnedNoRows)
    {
      var rows := new Rows(this);
      var row := rows.GetExpectedRow();
      rows.Drop();
      LogIs(1, log, old(log));
      if row.Err? {
        return Err(row.error);
      }
      return f(row.value);
    }

    /** Succeeds exactly on one row that maps, followed by a clean end. */
    method QueryOne<T>(f: V -> Result<T, Error<E>>) returns (r: Result<T, Error<E>>)
      requires steps == 0
      modifies this`steps, this`log
      ensures steps == 0
      ensures log == old(log) + Steps(if x.outcome(0).Row? && f(x.outcome(0).v).Ok? then 2 else 1) + [Reset]
      ensures r.Ok? <==> && x.outcome(0).Row? && f(x.outcome(0).v).Ok?
                         && x.outcome(1).Done? && x.onReset(2).None?
      ensures r.Ok? ==> r == f(x.outcome(0).v)
      ensures x.outcome(0).Row? && f(x.outcome(0).v).Ok? && x.outcome(1).Row? ==>
                r == Err(QueryReturnedMoreThanOneRow)
      ensures x.outcome(0).Row? && f(x.outcome(0).v).Err? ==> r == f(x.outcome(0).v)
      ensures x.outcome(0).Done? && x.onReset(1).None? ==> r == Err(QueryReturnedNoRows)
      ensures x.outcome(0).Done? && x.onReset(1).Some? ==> r == Err(FromSqlite(x.onReset(1).value))
      ensures x.outcome(0).Fails? ==> r == Err(FromSqlite(x.outcome(0).e))
      ensures x.outcome(0).Row? && f(x.outcome(0).v).Ok? && x.outcome(1).Fails? ==>
                r == Err(FromSqlite(x.outcome(1).e))
      ensures x.outcome(0).Row? && f(x.outcome(0).v).Ok? && x.outcome(1).Done? && x.onReset(2).Some? ==>
                r == Err(FromSqlite(x.onReset(2).value))
    {
      var rows := new Rows(this);
      var row := rows.GetExpectedRow();
      if row.Err? {
        rows.Drop();
        return Err(row.error);
      }
      var mapped := f(row.value);
      if mapped.Err? {
        rows.Drop();
        return mapped;
      }
      var second := rows.Next();
      rows.Drop();
      if second.Err? {
        return Err(second.error);
      }
      if second.value.Some? {
        return Err(QueryReturnedMoreThanOneRow);
      }
      return mapped;
    }

    /** One step and one reset, in that order, whatever they say. */
    method ExecuteWithBoundParameters() returns (r: Result<nat, Error<E>>)
      requires steps == 0
      modifies this`steps, this`log
      ensures steps == 0 && log == old(log) + [Stepped, Reset]
      ensures r.Ok? <==> x.outcome(0).Done? && x.onReset(1).None?
      ensures r.Ok? ==> r.value == changes
      ensures x.outcome(0).Row? <==> r == Err(ExecuteReturnedResults)
      ensures x.outcome(0).Fails? ==> r == Err(FromSqlite(x.outcome(0).e))
      ensures x.outcome(0).Done? && x.onReset(1).Some? ==> r == Err(FromSqlite(x.onReset(1).value))
    {
      var step := Step();
      var reset := ResetStatement();
      match step {
        case Done => r := Checked(reset, changes);
        case Row(_) => r := Err(ExecuteReturnedResults);
        case Fails(e) => r := Err(FromSqlite(e));
      }
    }
  }

  lemma LogIs(n: nat, log: seq<Event>, before: seq<Event>)
    requires log == before + Steps(n) + [Reset]
    ensures n == 1 ==> log == before + [Stepped, Reset]
  {
    if n == 1 {
      assert Steps(1) == [Stepped];
    }
  }

  // ---------- Rows ----------

  class Rows<V, E> {
    var stmt: Statement?<V, E>
    var row: Option<V>
    ghost const source: Statement<V, E>
    ghost const base: seq<Event>
    ghost var calls: nat
    ghost var made: nat

    /** While it has the statement it has seen only rows; a current row implies the statement; once it
        has let go, the statement was reset after the last step and never touched again. */
    ghost predicate Valid()
      reads this, source
    {
      && (stmt != null ==>
            && stmt == source && made == calls && AllRows(source.x, calls) && source.steps == calls
            && source.log == base + Steps(made)
            && row == if calls == 0 then None else Some(source.x.outcome(calls - 1).v))
      && (stmt == null ==> source.steps == 0 && source.log == base + Steps(made) + [Reset])
      && (row.Some? ==> stmt != null)
    }

    /** It let go because the query was over, not because it was dropped. */
    ghost predicate Exhausted()
      reads this, source
    {
      stmt == null && row == None && !AllRows(source.x, calls) && made == StepsMade(source.x, calls)
    }

    constructor (stmt: Statement<V, E>)
      requires stmt.steps == 0
      ensures Valid() && this.stmt == stmt && source == stmt && base == stmt.log && calls == 0
    {
      this.stmt := stmt;
      row := None;
      source, base, calls, made := stmt, stmt.log, 0, 0;
      new;
      assert Steps(0) == [];
    }

    method ResetRows() returns (r: Option<E>)
      requires stmt == null || stmt == source
      modifies this`stmt, source`steps, source`log
      ensures stmt == null && row == old(row)
      ensures old(stmt) == null ==> r == None && source.log == old(source.log) && source.steps == old(source.steps)
      ensures old(stmt) != null ==> r == source.x.onReset(old(source.steps)) && source.steps == 0
      ensures old(stmt) != null ==> source.log == old(source.log) + [Reset]
    {
      if stmt == null {
        return None;
      }
      var s := stmt;
      stmt := null;
      r := s.ResetStatement();
    }

    method Advance() returns (r: Result<(), Error<E>>)
      requires Valid() && (stmt == null ==> Exhausted())
      modifies this, source`steps, source`log
      ensures Valid() && calls == old(calls) + 1
      ensures stmt == null ==> Exhausted()
      ensures made == StepsMade(source.x, calls) || stmt != null
      ensures var item := Item(source.x, old(calls));
              if item.Err? then r == Err(item.error) else r == Ok(()) && row == item.value
    {
      calls := calls + 1;
      if stmt == null {
        row := None;
        return Ok(());
      }
      var s := stmt.Step();
      made := calls;
      assert Steps(calls) == Steps(calls - 1) + [Stepped];
      match s {
        case Row(v) =>
          row := Some(v);
          return Ok(());
        case Done =>
          var e := ResetRows();
          row := None;
          return Checked(e, ());
        case Fails(e) =>
          var _ := ResetRows();
          row := None;
          return Err(FromSqlite(e));
      }
    }

    method Next() returns (r: Result<Option<V>, Error<E>>)
      requires Valid() && (stmt == null ==> Exhausted())
      modifies this, source`steps, source`log
      ensures Valid() && calls == old(calls) + 1
      ensures stmt == null ==> Exhausted()
      ensures r == Item(source.x, old(calls))
    {
      var a := Advance();
      if a.Err? {
        return Err(a.error);
      }
      return Ok(row);
    }

    method GetExpectedRow() returns (r: Result<V, Error<E>>)
      requires Valid() && (stmt == null ==> Exhausted())
      modifies this, source`steps, source`log
      ensures Valid() && calls == old(calls) + 1
      ensures stmt == null ==> Exhausted()
      ensures var item := Item(source.x, old(calls));
              r == if item.Err? then Err(item.error)
                   else if item.value.None? then Err(QueryReturnedNoRows)
                   else Ok(item.value.value)
    {
      var next := Next();
      if next.Err? {
        return Err(next.error);
      }
      match next.value {
        case Some(v) => return Ok(v);
        case None => return Err(QueryReturnedNoRows);
      }
    }

    /** Whenever it is dropped, the statement has been reset exactly once, after its last step. */
    method Drop()
      requires Valid() && (stmt == null ==> Exhausted())
      modifies this`stmt, source`steps, source`log
      ensures stmt == null && source.steps == 0
      ensures source.log == base + Steps(StepsMade(source.x, calls)) + [Reset]
    {
      if stmt != null {
        AllRowsMakeAll(source.x, calls);
      }
      var _ := ResetRows();
    }
  }

  lemma AllRowsMakeAll<V, E>(x: Execution<V, E>, n: nat)
    requires AllRows(x, n)
    ensures StepsMade(x, n) == n
  {
  }

  // ---------- Mapping iterators ----------

  /** `MappedRows` and `AndThenRows`: an error from SQLite and an error from the function look alike. */
  function Mapped<V, T, E>(item: Result<Option<V>, Error<E>>, f: V -> Result<T, Error<E>>)
    : Option<Result<T, Error<E>>> {
    match item
    case Err(e) => Some(Err(e))
    case Ok(None) => None
    case Ok(Some(v)) => Some(f(v))
  }

  class MappedRows<V, T, E> {
    const rows: Rows<V, E>
    const f: V -> Result<T, Error<E>>

    constructor (rows: Rows<V, E>, f: V -> Result<T, Error<E>>)
      ensures this.rows == rows && this.f == f
    {
      this.rows := rows;
      this.f := f;
    }

    method Next() returns (r: Option<Result<T, Error<E>>>)
      requires rows.Valid() && (rows.stmt == null ==> rows.Exhausted())
      modifies rows, rows.source`steps, rows.source`log
      ensures rows.Valid() && rows.calls == old(rows.calls) + 1
      ensures rows.stmt == null ==> rows.Exhausted()
      ensures match Item(rows.source.x, old(rows.calls))
              case Err(e) => r == Some(Err(e))
              case Ok(None) => r == None
              case Ok(Some(v)) => r == Some(f(v))
      ensures r == Mapped(Item(rows.source.x, old(rows.calls)), f)
    {
      var next := rows.Next();
      match next {
        case Err(e) => return Some(Err(e));
        case Ok(None) => return None;
        case Ok(Some(v)) => return Some(f(v));
      }
    }
  }

  /** `Map`, the fallible iterator: the function's error ends the call but not the iteration. */
  method MapNext<V, T, E>(rows: Rows<V, E>, f: V -> Result<T, Error<E>>) returns (r: Result<Option<T>, Error<E>>)
    requires rows.Valid() && (rows.stmt == null ==> rows.Exhausted())
    modifies rows, rows.source`steps, rows.source`log
    ensures rows.Valid() && rows.calls == old(rows.calls) + 1
    ensures rows.stmt == null ==> rows.Exhausted()
    ensures match Item(rows.source.x, old(rows.calls))
            case Err(e) => r == Err(e)
            case Ok(None) => r == Ok(None)
            case Ok(Some(v)) => r == if f(v).Err? then Err(f(v).error) else Ok(Some(f(v).value))
  {
    var next := rows.Next();
    if next.Err? {
      return Err(next.error);
    }
    if next.value.None? {
      return Ok(None);
    }
    var t := f(next.value.value);
    if t.Err? {
      return Err(t.error);
    }
    return Ok(Some(t.value));
  }

  // ---------- Every caller ----------

  /** A caller that calls `next` any number of times, before or after the end, and drops the rows. */
  method CallTimes<V, E>(stmt: Statement<V, E>, n: nat) returns (items: seq<Result<Option<V>, Error<E>>>)
    requires stmt.steps == 0
    modifies stmt`steps, stmt`log
    ensures items == seq(n, i requires 0 <= i < n => Item(stmt.x, i))
    ensures stmt.steps == 0
    ensures stmt.log == old(stmt.log) + Steps(StepsMade(stmt.x, n)) + [Reset]
  {
    var rows := new Rows(stmt);
    items := [];
    for i := 0 to n
      invariant fresh(rows) && rows.source == stmt && rows.base == old(stmt.log)
      invariant rows.Valid() && rows.calls == i && (rows.stmt == null ==> rows.Exhausted())
      invariant items == seq(i, k requires 0 <= k < i => Item(stmt.x, k))
    {
      var item := rows.Next();
      items := items + [item];
    }
    rows.Drop();
  }

  /** Rows in order, then at most one error, then nothing for ever. */
  lemma RowsThenErrorThenNone<V, E>(x: Execution<V, E>, i: nat)
    ensures (Item(x, i).Ok? && Item(x, i).value.Some?) <==> AllRows(x, i + 1)
    ensures AllRows(x, i + 1) ==> Item(x, i) == Ok(Some(x.outcome(i).v))
    ensures Item(x, i).Err? ==> forall j: nat :: j != i ==> Item(x, j).Ok?
    ensures Item(x, i) == Ok(None) || Item(x, i).Err? ==> forall j: nat :: j > i ==> Item(x, j) == Ok(None)
  {
    if Item(x, i).Err? || Item(x, i) == Ok(None) {
      forall j: nat | j > i ensures Item(x, j) == Ok(None) {
        assert !AllRows(x, j);
      }
      if Item(x, i).Err? {
        forall j: nat | j < i ensures Item(x, j).Ok? {
          assert x.outcome(j).Row?;
        }
      }
    }
  }

  /** What a caller gets, from the outcomes alone: each row, or the function's answer to it; at the end the
      error of the step, or of the reset after it, if there is one; and nothing after that. */
  lemma ItemsAre<V, T, E>(x: Execution<V, E>, last: nat, i: nat, f: V -> Result<T, Error<E>>)
    requires AllRows(x, last) && !x.outcome(last).Row?
    ensures var end := if x.outcome(last).Fails? then Some(x.outcome(last).e) else x.onReset(last + 1);
            var item, mapped := Item(x, i), Mapped(Item(x, i), f);
            if i < last then item == Ok(Some(x.outcome(i).v)) && mapped == Some(f(x.outcome(i).v))
            else if i == last && end.Some? then
              item == Err(FromSqlite(end.value)) && mapped == Some(Err(FromSqlite(end.value)))
            else item == Ok(None) && mapped == None
  {
    if i > last {
      assert !AllRows(x, i);
    }
  }

  /** The steps are those of the rows and one more, however often the caller asks. */
  lemma {:induction false} StepsStopAtTheEnd<V, E>(x: Execution<V, E>, last: nat, n: nat)
    requires AllRows(x, last) && !x.outcome(last).Row?
    ensures StepsMade(x, n) == if n <= last then n else last + 1
    decreases n
  {
    if n > 0 {
      StepsStopAtTheEnd(x, last, n - 1);
      if n - 1 > last {
        assert !AllRows(x, n - 1);
      }
    }
  }

  // ---------- Binding ----------

  /** Where binding the parameters one by one first fails, if it does. */
  function FirstBindError<P, E>(bind: (nat, P) -> Option<E>, params: seq<P>): (r: Option<nat>)
    ensures r.Some? ==> r.value < |params| && bind(r.value + 1, params[r.value]).Some?
    ensures forall i :: 0 <= i < (if r.Some? then r.value else |params|) ==> bind(i + 1, params[i]).None?
  {
    if params == [] then None
    else
      var earlier := FirstBindError(bind, params[..|params| - 1]);
      if earlier.Some? then earlier
      else if bind(|params|, params[|params| - 1]).Some? then Some(|params| - 1)
      else None
  }

  function Least(a: nat, b: nat): nat {
    if a < b then a else b
  }

  /** What a wrong number of parameters is reported as: nobody counts past the first one too many. */
  function CountError<E>(given: nat, expected: nat): (e: Option<Error<E>>)
    ensures e.None? <==> given == expected
  {
    if given == expected then None else Some(InvalidParameterCount(Least(given, expected + 1), expected))
  }

  /** The error carries the number given, as it is documented to, if and only if that is at most one more
      than expected. */
  lemma CountIsGiven<E>(given: nat, expected: nat)
    ensures CountError<E>(given, expected) == Some(InvalidParameterCount(given, expected))
            <==> given != expected && given <= expected + 1
  {
  }

  /** Three parameters for a statement that takes one: the error says two. */
  method ThreeForOne() returns (r: Result<(), Error<int>>, bound: seq<bool>)
    ensures bound == [true] && r == Err(InvalidParameterCount(2, 1))
  {
    var params := [true, false, true];
    var bind := (index: nat, p: bool) => if index == 1 then None else Some(25);
    r, bound := BindParameters(bind, params, 1);
    assert params[..1] == [true];
    assert params[..1][..0] == [];
    assert FirstBindError(bind, params[..1]) == None;
  }

  /** Binds from the left, from index 1, stops at the first error or when the statement has no more
      parameters, and succeeds exactly if the numbers agree. What was bound stays bound. */
  method BindParameters<P, E>(bind: (nat, P) -> Option<E>, params: seq<P>, expected: nat)
    returns (r: Result<(), Error<E>>, bound: seq<P>)
    ensures var used := params[..Least(|params|, expected)];
            match FirstBindError(bind, used)
            case Some(i) => bound == params[..i] && r == Err(FromSqlite(bind(i + 1, params[i]).value))
            case None => && bound == used
                         && (|params| == expected ==> r == Ok(()))
                         && (|params| < expected ==> r == Err(InvalidParameterCount(|params|, expected)))
                         && (|params| > expected ==> r == Err(InvalidParameterCount(expected + 1, expected)))
                         && r == if CountError<E>(|params|, expected).Some?
                                 then Err(CountError<E>(|params|, expected).value) else Ok(())
  {
    var index := 0;
    bound := [];
    var i := 0;
    while i < |params|
      invariant 0 <= i <= |params| && index == i <= expected
      invariant bound == params[..i] && FirstBindError(bind, params[..i]) == None
    {
      index := index + 1;
      if index > expected {
        break;
      }
      assert params[..i + 1][..i] == params[..i];
      var e := bind(index, params[i]);
      if e.Some? {
        assert params[..Least(|params|, expected)][..i + 1] == params[..i + 1];
        FirstErrorStays(bind, params[..Least(|params|, expected)], i);
        return Err(FromSqlite(e.value)), bound;
      }
      bound := bound + [params[i]];
      i := i + 1;
    }
    if index == expected {
      return Ok(()), bound;
    }
    return Err(InvalidParameterCount(index, expected)), bound;
  }

  lemma {:induction false} FirstErrorStays<P, E>(bind: (nat, P) -> Option<E>, params: seq<P>, i: nat)
    requires i < |params| && FirstBindError(bind, params[..i + 1]) == Some(i)
    ensures FirstBindError(bind, params) == Some(i)
    decreases |params|
  {
    if i + 1 < |params| {
      var shorter := params[..|params| - 1];
      assert shorter[..i + 1] == params[..i + 1];
      FirstErrorStays(bind, shorter, i);
    } else {
      assert params[..i + 1] == params;
    }
  }
}

/**
 Closing a connection against interrupts from other threads (src/inner_connection.rs, src/lib.rs).

 The connection's own thread may call `close` any number of times; any number of other threads hold
 clones of the interrupt handle. The clones share a mutex-guarded copy of the database pointer. The
 class is the code as one thread runs it; the step relation is the same code with its lock, calls and
 pointer writes as separate steps of interleaved threads.
 */
module InterruptClose {
  import opened Wrappers

  /** `db` and `shared` are null or point to the one database; `open` says it has not been closed. */
  datatype Pointers = Pointers(db: bool, shared: bool, owned: bool, open: bool)

  datatype CloseResult = Success | Failure | Panicked

  /** The pointers and the result of one uninterrupted `close`, when SQLite's own close would succeed
      or fail as `closes` says. */
  function Closed(p: Pointers, closes: bool): (Pointers, CloseResult) {
    if !p.db then (p, Success)
    else if p.owned && !p.shared then (p, Panicked)
    else if !p.owned then (p.(db := false), Success)
    else if closes then (p.(db := false, shared := false, open := false), Success)
    else (p, Failure)
  }

  class InnerConnection {
    var db: bool
    var shared: bool
    const owned: bool
    var open: bool

    constructor (owned: bool)
      ensures State() == Pointers(true, owned, owned, true)
    {
      this.db := true;
      this.owned := owned;
      this.shared := owned;
      this.open := true;
    }

    function State(): Pointers
      reads this
    {
      Pointers(db, shared, owned, open)
    }

    method Close(closes: bool) returns (r: CloseResult)
      modifies this
      ensures (State(), r) == Closed(old(State()), closes)
      ensures old(!db) ==> r == Success && State() == old(State())
      ensures old(db && owned && !shared) ==> r == Panicked && State() == old(State())
      ensures old(db && !owned) ==> r == Success && State() == old(State()).(db := false)
      ensures old(db && owned && shared) ==>
                if closes then r == Success && !db && !shared && !open else r == Failure && State() == old(State())
    {
      if !db {
        return Success;
      }
      if owned && !shared {
        return Panicked;
      }
      if !owned {
        db := false;
        return Success;
      }
      if !closes {
        return Failure;
      }
      open := false;
      shared := false;
      db := false;
      return Success;
    }
  }

  // ---------- Threads ----------

  datatype Holder = Owner | Other(i: nat)

  /** Where the connection's thread stands in `close`. From `Locked` to `Unlocking` it holds the mutex;
      `InClose` is the time inside `sqlite3_close`. */
  datatype ClosePc = Idle | WantLock | Locked | InClose | ClearShared | ClearDb | Unlocking

  /** Where another thread stands in `interrupt`; `InInterrupt` is the time inside `sqlite3_interrupt`. */
  datatype InterruptPc = Away | Wanting | Holding | InInterrupt | Releasing

  datatype State = State(p: Pointers, mutex: Option<Holder>, close: ClosePc, others: seq<InterruptPc>)

  /** `OwnerStep` carries what SQLite's close answers, should this be the step in which it returns. */
  datatype Action = OwnerStep(closes: bool) | OtherStep(i: nat) | CloneHandle

  function OwnerMove(s: State, closes: bool): Option<State> {
    match s.close
    case Idle => if s.p.db then Some(s.(close := WantLock)) else Some(s)
    case WantLock => if s.mutex.None? then Some(s.(mutex := Some(Owner), close := Locked)) else None
    case Locked =>
      // a null shared pointer of an owned connection would panic here
      if s.p.owned && !s.p.shared then None
      else if !s.p.owned then Some(s.(p := s.p.(db := false), close := Unlocking))
      else Some(s.(close := InClose))
    case InClose =>
      if closes then Some(s.(p := s.p.(open := false), close := ClearShared)) else Some(s.(close := Unlocking))
    case ClearShared => Some(s.(p := s.p.(shared := false), close := ClearDb))
    case ClearDb => Some(s.(p := s.p.(db := false), close := Unlocking))
    case Unlocking => Some(s.(mutex := None, close := Idle))
  }

  function OtherMove(s: State, i: nat): Option<State>
    requires i < |s.others|
  {
    match s.others[i]
    case Away => Some(s.(others := s.others[i := Wanting]))
    case Wanting =>
      if s.mutex.None? then Some(s.(mutex := Some(Other(i)), others := s.others[i := Holding])) else None
    case Holding => Some(s.(others := s.others[i := if s.p.shared then InInterrupt else Releasing]))
    case InInterrupt => Some(s.(others := s.others[i := Releasing]))
    case Releasing => Some(s.(mutex := None, others := s.others[i := Away]))
  }

  function Act(s: State, a: Action): Option<State> {
    match a
    case OwnerStep(closes) => OwnerMove(s, closes)
    case OtherStep(i) => if i < |s.others| then OtherMove(s, i) else None
    case CloneHandle => Some(s.(others := s.others + [Away]))
  }

  function Init(owned: bool): State {
    State(Pointers(true, owned, owned, true), None, Idle, [])
  }

  function Execute(s: State, actions: seq<Action>): Option<State>
    decreases |actions|
  {
    if actions == [] then Some(s)
    else
      match Execute(s, actions[..|actions| - 1])
      case None => None
      case Some(mid) => Act(mid, actions[|actions| - 1])
  }

  predicate InCritical(pc: ClosePc) {
    pc == Locked || pc == InClose || pc == ClearShared || pc == ClearDb || pc == Unlocking
  }

  predicate Holds(pc: InterruptPc) {
    pc == Holding || pc == InInterrupt || pc == Releasing
  }

  ghost predicate Inv(s: State) {
    && (s.mutex == Some(Owner) <==> InCritical(s.close))
    && (forall i :: 0 <= i < |s.others| ==> (s.mutex == Some(Other(i)) <==> Holds(s.others[i])))
    && (s.mutex.Some? && s.mutex.value.Other? ==> s.mutex.value.i < |s.others|)
    && (!s.p.owned ==> s.p.open && !s.p.shared)
    && (s.close == InClose || s.close == ClearShared || s.close == ClearDb ==> s.p.owned && s.p.db)
    && (s.close == WantLock || s.close == Locked ==> s.p.db)
    && (s.p.owned ==> s.p.shared == (s.p.open || s.close == ClearShared))
    && (s.p.owned ==> s.p.db == (s.p.open || s.close == ClearShared || s.close == ClearDb))
    && (s.close == ClearShared || s.close == ClearDb ==> !s.p.open)
    && (s.close == InClose ==> s.p.open)
    && (forall i :: 0 <= i < |s.others| && s.others[i] == InInterrupt ==> s.p.shared)
  }

  lemma OwnerKeepsInv(s: State, closes: bool)
    requires Inv(s) && OwnerMove(s, closes).Some?
    ensures Inv(OwnerMove(s, closes).value)
  {
  }

  lemma OtherKeepsInv(s: State, i: nat)
    requires Inv(s) && i < |s.others| && OtherMove(s, i).Some?
    ensures Inv(OtherMove(s, i).value)
  {
  }

  lemma ActKeepsInv(s: State, a: Action)
    requires Inv(s) && Act(s, a).Some?
    ensures Inv(Act(s, a).value)
  {
    match a {
      case OwnerStep(closes) => OwnerKeepsInv(s, closes);
      case OtherStep(i) => OtherKeepsInv(s, i);
      case CloneHandle =>
    }
  }

  lemma {:induction false} ReachableInv(owned: bool, actions: seq<Action>)
    requires Execute(Init(owned), actions).Some?
    ensures Inv(Execute(Init(owned), actions).value)
    decreases |actions|
  {
    if actions != [] {
      ReachableInv(owned, actions[..|actions| - 1]);
      ActKeepsInv(Execute(Init(owned), actions[..|actions| - 1]).value, actions[|actions| - 1]);
    }
  }

  lemma {:induction false} OwnershipKept(owned: bool, actions: seq<Action>)
    requires Execute(Init(owned), actions).Some?
    ensures Execute(Init(owned), actions).value.p.owned == owned
    decreases |actions|
  {
    if actions != [] {
      OwnershipKept(owned, actions[..|actions| - 1]);
    }
  }

  // ---------- Main results ----------

  /** In every interleaving: `sqlite3_interrupt` is never running while `sqlite3_close` is, and never on
      a closed database; `sqlite3_close` only ever gets an open, owned one; outside the critical section
      of `close` the shared pointer is the open handle of an owned connection and null otherwise; and
      the assertion in `close` holds. */
  lemma InterruptAndCloseAreSafe(owned: bool, actions: seq<Action>)
    requires Execute(Init(owned), actions).Some?
    ensures var s := Execute(Init(owned), actions).value;
            && (forall i :: 0 <= i < |s.others| && s.others[i] == InInterrupt ==>
                  s.p.open && s.p.owned && !InCritical(s.close))
            && (s.close == InClose ==> s.p.open && s.p.owned && s.p.db)
            && (!InCritical(s.close) ==> s.p.shared == (owned && s.p.open) && (owned ==> s.p.db == s.p.open))
            && (s.close == Locked && owned ==> s.p.shared)
            && (!owned ==> s.p.open)
  {
    ReachableInv(owned, actions);
    OwnershipKept(owned, actions);
    var s := Execute(Init(owned), actions).value;
    forall i | 0 <= i < |s.others| && s.others[i] == InInterrupt
      ensures s.p.open && s.p.owned && !InCritical(s.close)
    {
      assert s.mutex == Some(Other(i));
    }
  }

  /** What SQLite's close answered in a run, if it was called in it. */
  function Answer(s: State, actions: seq<Action>): Option<bool>
    decreases |actions|
  {
    if actions == [] then None
    else
      var before, last := actions[..|actions| - 1], actions[|actions| - 1];
      if Answer(s, before).Some? then Answer(s, before)
      else
        match Execute(s, before)
        case Some(mid) => if mid.close == InClose && last.OwnerStep? then Some(last.closes) else None
        case None => None
  }

  /** The call of `close` is not over before the last action. */
  ghost predicate StillClosing(s: State, actions: seq<Action>) {
    forall k :: 0 <= k < |actions| ==> Execute(s, actions[..k]).Some? && Execute(s, actions[..k]).value.close != Idle
  }

  /** The pointers at each point of a call of `close` that began with `p`. */
  ghost predicate ClosingFrom(p: Pointers, t: State, answer: Option<bool>) {
    match t.close
    case Idle => AfterAnswer(p, t.p, answer)
    case WantLock => false
    case Locked => t.p == p && answer == None
    case InClose => t.p == p && p.owned && answer == None
    case ClearShared => p.owned && answer == Some(true) && t.p == p.(open := false)
    case ClearDb => p.owned && answer == Some(true) && t.p == p.(open := false, shared := false)
    case Unlocking => AfterAnswer(p, t.p, answer)
  }

  /** SQLite is asked exactly if the connection is owned, and its answer decides. */
  ghost predicate AfterAnswer(p: Pointers, after: Pointers, answer: Option<bool>) {
    && (answer.Some? <==> p.owned)
    && after == Closed(p, answer == Some(true)).0
  }

  lemma ActKeepsClosing(p: Pointers, t: State, answer: Option<bool>, a: Action)
    requires Inv(t) && ClosingFrom(p, t, answer) && t.close != Idle && Act(t, a).Some?
    requires p.db && (p.owned ==> p.shared)
    ensures var answer' := if answer.None? && t.close == InClose && a.OwnerStep? then Some(a.closes) else answer;
            ClosingFrom(p, Act(t, a).value, answer')
  {
  }

  lemma {:induction false} ClosingKept(s: State, actions: seq<Action>)
    requires Inv(s) && s.close == Locked && Execute(s, actions).Some? && StillClosing(s, actions)
    ensures Inv(Execute(s, actions).value) && ClosingFrom(s.p, Execute(s, actions).value, Answer(s, actions))
    decreases |actions|
  {
    if actions != [] {
      var before, last := actions[..|actions| - 1], actions[|actions| - 1];
      assert Execute(s, before).Some? && Execute(s, before).value.close != Idle;
      forall k | 0 <= k < |before| ensures before[..k] == actions[..k] {
      }
      ClosingKept(s, before);
      ActKeepsInv(Execute(s, before).value, last);
      ActKeepsClosing(s.p, Execute(s, before).value, Answer(s, before), last);
    }
  }

  /** In every interleaving, with other threads and new handles at any point, a call of `close` that has
      the lock comes out, when it unlocks and after, as the uninterrupted one does for the answer SQLite
      gave. It asks SQLite exactly if the connection is owned; the assertion never fails; and a close that
      fails has changed nothing, so it can be tried again. */
  lemma CloseOutcome(s: State, actions: seq<Action>)
    requires Inv(s) && s.close == Locked && Execute(s, actions).Some? && StillClosing(s, actions)
    ensures var t, answer := Execute(s, actions).value, Answer(s, actions);
            t.close == Unlocking || t.close == Idle ==>
              && (answer.Some? <==> s.p.owned)
              && var (after, result) := Closed(s.p, answer == Some(true));
                 && t.p == after && result != Panicked
                 && (result == Failure <==> answer == Some(false))
                 && (result == Failure ==> t.p == s.p)
                 && (result == Success ==> !t.p.db && !t.p.shared)
  {
    ClosingKept(s, actions);
    var answer := Answer(s, actions);
    if answer.Some? && !answer.value {
      assert answer == Some(false);
    }
  }

  /** And left alone it does come out: the owner's own steps take it from the lock to the end. */
  lemma UndisturbedClose(s: State, closes: bool)
    requires Inv(s) && s.close == Locked
    ensures var run := Execute(s, if s.p.owned then
                                    if closes then seq(5, _ => OwnerStep(true)) else seq(3, _ => OwnerStep(false))
                                  else seq(2, _ => OwnerStep(closes)));
            && run.Some?
            && run.value == s.(p := Closed(s.p, closes).0, mutex := None, close := Idle)
            && Closed(s.p, closes).1 != Panicked
            && (Closed(s.p, closes).1 == Failure ==> run.value.p == s.p)
  {
    if s.p.owned && closes {
      Steps(s, OwnerStep(true), 5);
      assert Repeat(s, OwnerStep(true), 1) == Some(s.(close := InClose));
      assert Repeat(s, OwnerStep(true), 2).value.close == ClearShared;
      assert Repeat(s, OwnerStep(true), 3).value.close == ClearDb;
      assert Repeat(s, OwnerStep(true), 4).value.close == Unlocking;
    } else if s.p.owned {
      Steps(s, OwnerStep(false), 3);
      assert Repeat(s, OwnerStep(false), 1) == Some(s.(close := InClose));
      assert Repeat(s, OwnerStep(false), 2) == Some(s.(close := Unlocking));
    } else {
      Steps(s, OwnerStep(closes), 2);
      assert Repeat(s, OwnerStep(closes), 1) == Some(s.(p := s.p.(db := false), close := Unlocking));
    }
  }

  function Repeat(s: State, a: Action, n: nat): Option<State> {
    if n == 0 then Some(s)
    else
      match Repeat(s, a, n - 1)
      case None => None
      case Some(mid) => Act(mid, a)
  }

  lemma {:induction false} Steps(s: State, a: Action, n: nat)
    ensures Execute(s, seq(n, _ => a)) == Repeat(s, a, n)
  {
    if n > 0 {
      Steps(s, a, n - 1);
      assert seq(n, _ => a)[..n - 1] == seq(n - 1, _ => a);
    }
  }

  /** An interrupt that has the lock reaches SQLite exactly if the connection is owned and not closed. */
  lemma InterruptReaches(owned: bool, actions: seq<Action>, i: nat)
    requires Execute(Init(owned), actions).Some? && i < |Execute(Init(owned), actions).value.others|
    requires Execute(Init(owned), actions).value.others[i] == Holding
    ensures var s := Execute(Init(owned), actions).value;
            var t := Act(s, OtherStep(i));
            && t.Some? && i < |t.value.others|
            && (t.value.others[i] == InInterrupt <==> owned && s.p.open)
  {
    ReachableInv(owned, actions);
    OwnershipKept(owned, actions);
    var s := Execute(Init(owned), actions).value;
    assert s.mutex == Some(Other(i));
  }

  /** Nobody can be stuck: whoever holds the mutex can take a step, and if nobody does, everyone can. */
  lemma NoDeadlock(owned: bool, actions: seq<Action>, closes: bool, i: nat)
    requires Execute(Init(owned), actions).Some? && i < |Execute(Init(owned), actions).value.others|
    ensures var s := Execute(Init(owned), actions).value;
            match s.mutex
            case None => Act(s, OwnerStep(closes)).Some? && Act(s, OtherStep(i)).Some?
            case Some(Owner) => Act(s, OwnerStep(closes)).Some?
            case Some(Other(j)) => Act(s, OtherStep(j)).Some?
  {
    ReachableInv(owned, actions);
  }
}

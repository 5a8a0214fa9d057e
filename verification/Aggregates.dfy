/**
 User aggregate and window callbacks (src/functions.rs). SQLite gives each group a zeroed pointer slot;
 the callbacks keep the user's accumulator in a box behind it, create the box lazily, hand it to the
 user's functions and free it in the final callback. Every user function is free to succeed, fail or
 panic in every call.
 */
module Aggregates {
  import opened Wrappers

  datatype Verdict = Fine | Fails | Panics

  /** What `init` did: it made an accumulator, returned an error, or panicked. */
  datatype Made<A> = Made(a: A) | NotMade(panicked: bool)

  /** What the callbacks can touch. `slot` is the pointer in the group's memory, 0 for null. `fault`
      records an access through a null or freed pointer; `valued` and `finalized` are the arguments the
      user's `value` and `finalize` were called with. */
  datatype Group<A> = Group(
    present: bool, slot: nat, boxes: map<nat, A>, freed: multiset<nat>, next: nat, fault: bool,
    valued: seq<Option<A>>, finalized: seq<Option<A>>)

  function NewGroup<A>(): Group<A> {
    Group(false, 0, map[], multiset{}, 1, false, [], [])
  }

  /** `sqlite3_aggregate_context`: asking for memory allocates it zeroed on first use, if there is any;
      asking for none finds it only if it is there. */
  function Context<A>(g: Group<A>, want: bool, available: bool): (Group<A>, bool) {
    if g.present then (g, true)
    else if want && available then (g.(present := true, slot := 0), true)
    else (g, false)
  }

  /** A user function changes the accumulator in place, whatever its verdict. */
  function Apply<A>(g: Group<A>, f: A -> (A, Verdict)): (Group<A>, Verdict) {
    if g.slot !in g.boxes then (g.(fault := true), Fails)
    else
      var (a, v) := f(g.boxes[g.slot]);
      (g.(boxes := g.boxes[g.slot := a]), v)
  }

  function InitVerdict<A>(init: Made<A>): Verdict {
    if init.Made? then Fine else if init.panicked then Panics else Fails
  }

  function StepCall<A>(g: Group<A>, available: bool, init: Made<A>, step: A -> (A, Verdict)): (Group<A>, Verdict) {
    var (g1, found) := Context(g, true, available);
    if !found then (g1, Fails)
    else if g1.slot != 0 then Apply(g1, step)
    else
      match init
      case NotMade(_) => (g1, InitVerdict(init))
      case Made(a) => Apply(g1.(slot := g1.next, boxes := g1.boxes[g1.next := a], next := g1.next + 1), step)
  }

  function InverseCall<A>(g: Group<A>, available: bool, inverse: A -> (A, Verdict)): (Group<A>, Verdict) {
    var (g1, found) := Context(g, true, available);
    if !found then (g1, Fails) else Apply(g1, inverse)
  }

  /** `value` also gets the accumulator by mutable reference. */
  function ValueCall<A>(g: Group<A>, touch: A -> A): Group<A> {
    if !g.present || g.slot == 0 then g.(valued := g.valued + [None])
    else if g.slot !in g.boxes then g.(fault := true)
    else
      var a := g.boxes[g.slot];
      g.(valued := g.valued + [Some(a)], boxes := g.boxes[g.slot := touch(a)])
  }

  /** The box is taken and freed before `finalize` runs, so its verdict does not matter to ownership.
      The slot keeps its stale pointer. */
  function FinalCall<A>(g: Group<A>): Group<A> {
    if !g.present || g.slot == 0 then g.(finalized := g.finalized + [None])
    else if g.slot !in g.boxes then g.(fault := true)
    else
      g.(finalized := g.finalized + [Some(g.boxes[g.slot])],
         boxes := g.boxes - {g.slot}, freed := g.freed + multiset{g.slot})
  }

  // ---------- The callbacks ----------

  class Callbacks<A> {
    var present: bool
    var slot: nat
    var boxes: map<nat, A>
    var freed: multiset<nat>
    var next: nat
    var valued: seq<Option<A>>
    var finalized: seq<Option<A>>

    constructor ()
      ensures State() == NewGroup()
    {
      present, slot, boxes, freed, next := false, 0, map[], multiset{}, 1;
      valued, finalized := [], [];
    }

    function State(): Group<A>
      reads this
    {
      Group(present, slot, boxes, freed, next, false, valued, finalized)
    }

    method AggregateContext(bytes: nat, available: bool) returns (pac: bool)
      modifies this
      ensures (State(), pac) == Context(old(State()), bytes > 0, available)
    {
      if !present && bytes > 0 && available {
        present, slot := true, 0;
      }
      pac := present;
    }

    /** Once created, the box is there for as long as the slot points to it. */
    method CallBoxedStep(available: bool, init: Made<A>, step: A -> (A, Verdict)) returns (v: Verdict)
      requires present && slot != 0 ==> slot in boxes
      modifies this
      ensures (State(), v) == StepCall(old(State()), available, init, step)
      ensures v == if !old(present) && !available then Fails
                   else if old(present) && old(slot) != 0 then step(old(boxes[slot])).1
                   else if init.Made? then step(init.a).1
                   else if init.panicked then Panics
                   else Fails
    {
      var pac := AggregateContext(8, available);
      if !pac {
        return Fails;
      }
      if slot == 0 {
        if init.NotMade? {
          return InitVerdict(init);
        }
        slot := next;
        boxes, next := boxes[next := init.a], next + 1;
      }
      var r := step(boxes[slot]);
      boxes := boxes[slot := r.0];
      return r.1;
    }

    /** The source dereferences the slot without a test, once the group has memory. */
    method CallBoxedInverse(available: bool, inverse: A -> (A, Verdict)) returns (v: Verdict)
      requires if present then slot in boxes else !available
      modifies this
      ensures (State(), v) == InverseCall(old(State()), available, inverse)
      ensures v == if !old(present) then Fails else inverse(old(boxes[slot])).1
    {
      var pac := AggregateContext(8, available);
      if !pac {
        return Fails;
      }
      var r := inverse(boxes[slot]);
      boxes := boxes[slot := r.0];
      return r.1;
    }

    method CallBoxedValue(touch: A -> A, value: Option<A> -> Verdict) returns (arg: Option<A>, v: Verdict)
      requires present && slot != 0 ==> slot in boxes
      modifies this
      ensures State() == ValueCall(old(State()), touch)
      ensures State().valued == old(State()).valued + [arg]
      ensures arg == (if old(present) && old(slot) != 0 then Some(old(boxes[slot])) else None) && v == value(arg)
    {
      var pac := AggregateContext(0, false);
      arg := if pac && slot != 0 then Some(boxes[slot]) else None;
      if arg.Some? {
        boxes := boxes[slot := touch(arg.value)];
      }
      v := value(arg);
      valued := valued + [arg];
    }

    method CallBoxedFinal(finalize: Option<A> -> Verdict) returns (arg: Option<A>, v: Verdict)
      requires present && slot != 0 ==> slot in boxes
      modifies this
      ensures State() == FinalCall(old(State()))
      ensures State().finalized == old(State()).finalized + [arg]
      ensures arg == (if old(present) && old(slot) != 0 then Some(old(boxes[slot])) else None) && v == finalize(arg)
    {
      arg := None;
      var pac := AggregateContext(0, false);
      if pac && slot != 0 {
        arg := Some(boxes[slot]);
        boxes := boxes - {slot};
        freed := freed + multiset{slot};
      }
      v := finalize(arg);
      finalized := finalized + [arg];
    }
  }

  // ---------- Ownership over whole runs ----------

  datatype Call<!A> =
    | Step(available: bool, init: Made<A>, step: A -> (A, Verdict))
    | Inverse(available: bool, inverse: A -> (A, Verdict))
    | Value(touch: A -> A)

  function Do<A>(g: Group<A>, call: Call<A>): Group<A> {
    match call
    case Step(available, init, step) => StepCall(g, available, init, step).0
    case Inverse(available, inverse) => InverseCall(g, available, inverse).0
    case Value(touch) => ValueCall(g, touch)
  }

  function Run<A>(calls: seq<Call<A>>): Group<A> {
    if calls == [] then NewGroup() else Do(Run(calls[..|calls| - 1]), calls[|calls| - 1])
  }

  /** How many rows whose step succeeded are still in the window. */
  function Rows<A>(calls: seq<Call<A>>): int {
    if calls == [] then 0
    else
      var before := calls[..|calls| - 1];
      match calls[|calls| - 1]
      case Step(available, init, step) =>
        Rows(before) + (if StepCall(Run(before), available, init, step).1 == Fine then 1 else 0)
      case Inverse(_, _) => Rows(before) - 1
      case Value(_) => Rows(before)
  }

  /** SQLite takes out of the window only rows it has put in. */
  ghost predicate InvertsOnlyStepped<A>(calls: seq<Call<A>>) {
    forall i :: 0 <= i < |calls| && calls[i].Inverse? ==> Rows(calls[..i]) > 0
  }

  /** The accumulator without pointers: whether the group has memory, and the user's value. */
  datatype Plain<A> = Plain(present: bool, acc: Option<A>)

  function PlainCall<A>(p: Plain<A>, call: Call<A>): Plain<A> {
    match call
    case Step(available, init, step) =>
      if !p.present && !available then p
      else if p.acc.Some? then Plain(true, Some(step(p.acc.value).0))
      else if init.Made? then Plain(true, Some(step(init.a).0))
      else Plain(true, None)
    case Inverse(available, inverse) =>
      Plain(p.present || available, if p.acc.None? then None else Some(inverse(p.acc.value).0))
    case Value(touch) => p.(acc := if p.acc.None? then None else Some(touch(p.acc.value)))
  }

  function PlainRun<A>(calls: seq<Call<A>>): Plain<A> {
    if calls == [] then Plain(false, None)
    else PlainCall(PlainRun(calls[..|calls| - 1]), calls[|calls| - 1])
  }

  /** Before the final callback there is no box, or the one box ever created, live and in the slot. */
  ghost predicate Owned<A>(g: Group<A>, p: Plain<A>) {
    && g.present == p.present && g.freed == multiset{} && g.finalized == []
    && (match p.acc
        case None => g.slot == 0 && g.boxes == map[] && g.next == 1
        case Some(a) => g.present && g.slot == 1 && g.boxes == map[1 := a] && g.next == 2)
  }

  /** An inverse that finds memory for the group, and no accumulator in it. */
  predicate ReachesNull<A>(p: Plain<A>, call: Call<A>) {
    call.Inverse? && p.acc.None? && (p.present || call.available)
  }

  predicate NullReached<A>(calls: seq<Call<A>>) {
    exists i :: 0 <= i < |calls| && ReachesNull(PlainRun(calls[..i]), calls[i])
  }

  /** The pointers always mirror the plain accumulator, and an access goes through a null or freed pointer
      exactly if some inverse found no accumulator. */
  lemma {:induction false} FaultIsExact<A>(calls: seq<Call<A>>)
    ensures Owned(Run(calls), PlainRun(calls))
    ensures Run(calls).fault <==> NullReached(calls)
    decreases |calls|
  {
    if calls != [] {
      var before, last := calls[..|calls| - 1], calls[|calls| - 1];
      FaultIsExact(before);
      CallMirrors(Run(before), PlainRun(before), last);
      assert calls == before + [last];
      NullReachedPrefix(before, last);
    }
  }

  lemma NullReachedPrefix<A>(before: seq<Call<A>>, last: Call<A>)
    ensures NullReached(before + [last]) <==> NullReached(before) || ReachesNull(PlainRun(before), last)
  {
    var calls := before + [last];
    assert calls[..|before|] == before;
    forall i | 0 <= i < |before| ensures calls[..i] == before[..i] {
    }
    if NullReached(before) {
      var i :| 0 <= i < |before| && ReachesNull(PlainRun(before[..i]), before[i]);
      assert calls[..i] == before[..i] && calls[i] == before[i];
    }
    if ReachesNull(PlainRun(before), last) {
      assert ReachesNull(PlainRun(calls[..|before|]), calls[|before|]);
    }
  }

  lemma CallMirrors<A>(g: Group<A>, p: Plain<A>, call: Call<A>)
    requires Owned(g, p)
    ensures Owned(Do(g, call), PlainCall(p, call))
    ensures Do(g, call).fault <==> g.fault || ReachesNull(p, call)
  {
    if call.Step? {
      StepMirrors(g, p, call);
    }
  }

  lemma StepMirrors<A>(g: Group<A>, p: Plain<A>, call: Call<A>)
    requires Owned(g, p) && call.Step?
    ensures Owned(Do(g, call), PlainCall(p, call)) && (Do(g, call).fault <==> g.fault)
  {
  }

  /** A callback reports to SQLite what the user's function said: that of `step` or `inverse` on the
      accumulator, or that of an `init` that made none; and a failure of its own only without memory. */
  lemma VerdictsReported<A>(g: Group<A>, p: Plain<A>, available: bool, init: Made<A>, f: A -> (A, Verdict))
    requires Owned(g, p)
    ensures StepCall(g, available, init, f).1 ==
            if !p.present && !available then Fails
            else
              match (p.acc, init)
              case (Some(a), _) => f(a).1
              case (None, Made(a)) => f(a).1
              case (None, NotMade(panicked)) => if panicked then Panics else Fails
    ensures InverseCall(g, available, f).1 == if p.acc.Some? then f(p.acc.value).1 else Fails
  {
  }

  /** `value` is called with the accumulator there is, and with none exactly if there is none. */
  lemma ValueGets<A>(g: Group<A>, p: Plain<A>, touch: A -> A)
    requires Owned(g, p)
    ensures ValueCall(g, touch).valued == g.valued + [p.acc]
  {
  }

  /** What SQLite guarantees rules that out. */
  lemma {:induction false} RunIsOwned<A>(calls: seq<Call<A>>)
    requires InvertsOnlyStepped(calls)
    ensures Owned(Run(calls), PlainRun(calls)) && !Run(calls).fault
    ensures Rows(calls) > 0 ==> PlainRun(calls).acc.Some?
    decreases |calls|
  {
    FaultIsExact(calls);
    if calls != [] {
      var before, last := calls[..|calls| - 1], calls[|calls| - 1];
      forall i | 0 <= i < |before| && before[i].Inverse? ensures Rows(before[..i]) > 0 {
        assert before[..i] == calls[..i];
      }
      RunIsOwned(before);
      CallMirrors(Run(before), PlainRun(before), last);
      if last.Inverse? {
        assert calls[..|calls| - 1] == before;
      }
    }
  }

  /** Over every run that ends in the final callback: at most one box is created, it is freed exactly
      once, nothing is reached through a null or freed pointer, and `finalize` runs once, with the
      accumulator exactly when one was created. */
  lemma BoxFreedOnce<A>(calls: seq<Call<A>>)
    requires InvertsOnlyStepped(calls)
    ensures var g := FinalCall(Run(calls));
            && !g.fault && g.boxes == map[]
            && (forall box :: g.freed[box] == if 0 < box < g.next then 1 else 0)
            && g.finalized == [PlainRun(calls).acc]
            && g.next == (if PlainRun(calls).acc.Some? then 2 else 1)
  {
    RunIsOwned(calls);
    FinalFrees(Run(calls), PlainRun(calls));
  }

  lemma FinalFrees<A>(g: Group<A>, p: Plain<A>)
    requires Owned(g, p) && !g.fault
    ensures var done := FinalCall(g);
            && !done.fault && done.boxes == map[] && done.next == (if p.acc.Some? then 2 else 1)
            && (forall box :: done.freed[box] == if 0 < box < done.next then 1 else 0)
            && done.finalized == [p.acc]
  {
    if p.acc.Some? {
      assert FinalCall(g).freed == multiset{1};
    } else {
      assert FinalCall(g).freed == multiset{};
    }
  }

  /** One call of SQLite on the callbacks. */
  method MakeCall<A>(callbacks: Callbacks<A>, call: Call<A>, ghost p: Plain<A>)
    requires Owned(callbacks.State(), p)
    requires call.Inverse? ==> p.acc.Some?
    modifies callbacks
    ensures callbacks.State() == Do(old(callbacks.State()), call)
  {
    match call {
      case Step(available, init, step) => var _ := callbacks.CallBoxedStep(available, init, step);
      case Inverse(available, inverse) => var _ := callbacks.CallBoxedInverse(available, inverse);
      case Value(touch) => var _, _ := callbacks.CallBoxedValue(touch, _ => Fine);
    }
  }

  lemma NextCall<A>(calls: seq<Call<A>>, i: nat)
    requires InvertsOnlyStepped(calls) && i < |calls|
    ensures Owned(Run(calls[..i]), PlainRun(calls[..i]))
    ensures calls[i].Inverse? ==> PlainRun(calls[..i]).acc.Some?
    ensures Run(calls[..i + 1]) == Do(Run(calls[..i]), calls[i])
  {
    var before := calls[..i];
    forall k | 0 <= k < |before| && before[k].Inverse? ensures Rows(before[..k]) > 0 {
      assert before[..k] == calls[..k];
    }
    RunIsOwned(before);
    assert calls[..i + 1][..i] == before;
  }

  /** SQLite making any calls it may make on the callbacks, and then the final one: no call meets a null or
      freed pointer, and `finalize` gets the plain accumulator, from a box that is then gone. */
  method RunCallbacks<A>(calls: seq<Call<A>>, finalize: Option<A> -> Verdict)
    returns (arg: Option<A>, v: Verdict, callbacks: Callbacks<A>)
    requires InvertsOnlyStepped(calls)
    ensures fresh(callbacks) && callbacks.State() == FinalCall(Run(calls))
    ensures arg == PlainRun(calls).acc && callbacks.boxes == map[] && callbacks.finalized == [arg]
    ensures v == finalize(PlainRun(calls).acc)
  {
    callbacks := new Callbacks();
    var i := 0;
    while i < |calls|
      invariant 0 <= i <= |calls| && fresh(callbacks)
      invariant callbacks.State() == Run(calls[..i])
    {
      NextCall(calls, i);
      MakeCall(callbacks, calls[i], PlainRun(calls[..i]));
      i := i + 1;
    }
    assert calls[..i] == calls;
    arg, v := FinishCallbacks(callbacks, calls, finalize);
  }

  method FinishCallbacks<A>(callbacks: Callbacks<A>, ghost calls: seq<Call<A>>, finalize: Option<A> -> Verdict)
    returns (arg: Option<A>, v: Verdict)
    requires InvertsOnlyStepped(calls) && callbacks.State() == Run(calls)
    modifies callbacks
    ensures callbacks.State() == FinalCall(Run(calls))
    ensures arg == PlainRun(calls).acc && callbacks.boxes == map[] && callbacks.finalized == [arg]
    ensures v == finalize(PlainRun(calls).acc)
  {
    RunIsOwned(calls);
    FinalFrees(Run(calls), PlainRun(calls));
    arg, v := callbacks.CallBoxedFinal(finalize);
    assert callbacks.State().finalized == [PlainRun(calls).acc] == [] + [arg];
    assert [PlainRun(calls).acc][0] == ([] + [arg])[0];
  }

  /** `finalize` gets `Some` exactly when some step found memory and an `init` that succeeded. */
  lemma {:induction false} SomeIffInitSucceeded<A>(calls: seq<Call<A>>)
    ensures PlainRun(calls).acc.Some? <==>
            exists i :: 0 <= i < |calls| && calls[i].Step? && calls[i].init.Made?
                        && (calls[i].available || PlainRun(calls[..i]).present)
    decreases |calls|
  {
    if calls != [] {
      var n := |calls| - 1;
      var before := calls[..n];
      SomeIffInitSucceeded(before);
      forall i | 0 <= i < n ensures before[..i] == calls[..i] && before[i] == calls[i] {
      }
      if PlainRun(calls).acc.Some? && PlainRun(before).acc.None? {
        assert calls[n].Step? && calls[n].init.Made?;
      }
    }
  }

  /** Inverting a row that never got in is the one way to reach through a null pointer. */
  lemma InverseNeedsARow<A>(inverse: A -> (A, Verdict), a: A)
    ensures Run([Step(true, NotMade(false), x => (x, Fine)), Inverse(true, inverse)]).fault
  {
    var calls := [Step(true, NotMade(false), (x: A) => (x, Fine)), Inverse(true, inverse)];
    assert calls[..1] == [calls[0]];
    assert [calls[0]][..0] == [];
    assert Run([calls[0]]) == Do(NewGroup(), calls[0]);
  }

  // ---------- Sliding windows ----------

  /** A window aggregate whose functions succeed. */
  datatype User<!A, !R> = User(init: A, step: (A, R) -> A, inverse: (A, R) -> A)

  function Fold<A, R>(user: User<A, R>, rows: seq<R>): A {
    if rows == [] then user.init else user.step(Fold(user, rows[..|rows| - 1]), rows[|rows| - 1])
  }

  datatype Move<R> = Push(row: R) | Pop | Peek

  /** The rows in the window; SQLite pops the oldest one and only if there is one. */
  function Window<R>(moves: seq<Move<R>>): seq<R> {
    if moves == [] then []
    else
      var w := Window(moves[..|moves| - 1]);
      match moves[|moves| - 1]
      case Push(row) => w + [row]
      case Pop => if w == [] then [] else w[1..]
      case Peek => w
  }

  predicate PopsOnlyRows<R>(moves: seq<Move<R>>) {
    forall i :: 0 <= i < |moves| && moves[i] == Pop ==> Window(moves[..i]) != []
  }

  predicate Pushed<R>(moves: seq<Move<R>>) {
    exists i :: 0 <= i < |moves| && moves[i].Push?
  }

  /** The callbacks SQLite makes; `inverse` gets the oldest row. */
  function CallOf<A, R>(user: User<A, R>, w: seq<R>, move: Move<R>): Call<A> {
    match move
    case Push(row) => Step(true, Made(user.init), a => (user.step(a, row), Fine))
    case Pop => Inverse(true, a => (if w == [] then a else user.inverse(a, w[0]), Fine))
    case Peek => Value(a => a)
  }

  function GroupAfter<A, R>(user: User<A, R>, moves: seq<Move<R>>): Group<A> {
    if moves == [] then NewGroup()
    else
      var before := moves[..|moves| - 1];
      Do(GroupAfter(user, before), CallOf(user, Window(before), moves[|moves| - 1]))
  }

  lemma PopsPrefix<R>(moves: seq<Move<R>>)
    requires PopsOnlyRows(moves) && moves != []
    ensures PopsOnlyRows(moves[..|moves| - 1])
    ensures moves[|moves| - 1] == Pop ==> Window(moves[..|moves| - 1]) != []
  {
    var before := moves[..|moves| - 1];
    forall i | 0 <= i < |before| && before[i] == Pop ensures Window(before[..i]) != [] {
      assert before[..i] == moves[..i];
    }
  }

  /** `inverse` undoes `step` for the oldest row, on the accumulators that occur. */
  ghost predicate Undoes<A, R(!new)>(user: User<A, R>) {
    forall oldest: R, rest: seq<R> :: user.inverse(Fold(user, [oldest] + rest), oldest) == Fold(user, rest)
  }

  /** The group's accumulator is a fresh fold over `w`, and there is one exactly if a row was stepped. */
  ghost predicate Tracks<A, R>(user: User<A, R>, g: Group<A>, pushed: bool, w: seq<R>) {
    && !g.fault
    && (if pushed then g.present && g.slot == 1 && g.boxes == map[1 := Fold(user, w)]
        else g.slot == 0 && g.boxes == map[] && g.next == 1 && w == [])
  }

  lemma MoveTracks<A, R(!new)>(user: User<A, R>, g: Group<A>, pushed: bool, w: seq<R>, move: Move<R>)
    requires Tracks(user, g, pushed, w)
    requires move == Pop ==> w != [] && Undoes(user)
    ensures Tracks(user, Do(g, CallOf(user, w, move)), pushed || move.Push?,
                   match move case Push(row) => w + [row] case Pop => w[1..] case Peek => w)
  {
    match move {
      case Push(row) => PushTracks(user, g, pushed, w, row);
      case Pop => assert w == [w[0]] + w[1..];
      case Peek =>
    }
  }

  lemma PushTracks<A, R(!new)>(user: User<A, R>, g: Group<A>, pushed: bool, w: seq<R>, row: R)
    requires Tracks(user, g, pushed, w)
    ensures Tracks(user, Do(g, CallOf(user, w, Push(row))), true, w + [row])
  {
    assert (w + [row])[..|w|] == w;
    assert Fold(user, w + [row]) == user.step(Fold(user, w), row);
    if !pushed {
      assert Fold(user, w) == user.init;
    }
  }

  /** Sliding-window refinement: after any valid sequence of callbacks the accumulator is a fresh fold
      over the rows now in the window; there is none only if no row was ever stepped, and it stays when
      inverses empty the window. */
  lemma {:induction false} WindowIsFold<A, R(!new)>(user: User<A, R>, moves: seq<Move<R>>)
    requires PopsOnlyRows(moves) && Undoes(user)
    ensures Tracks(user, GroupAfter(user, moves), Pushed(moves), Window(moves))
    decreases |moves|
  {
    if moves != [] {
      var before, last := moves[..|moves| - 1], moves[|moves| - 1];
      PopsPrefix(moves);
      WindowIsFold(user, before);
      assert moves == before + [last];
      PushedPrefix(before, last);
      MoveTracks(user, GroupAfter(user, before), Pushed(before), Window(before), last);
    }
  }

  lemma PushedPrefix<R>(before: seq<Move<R>>, last: Move<R>)
    ensures Pushed(before + [last]) <==> Pushed(before) || last.Push?
  {
    var moves := before + [last];
    if Pushed(before) {
      var i :| 0 <= i < |before| && before[i].Push?;
      assert moves[i].Push?;
    }
    if last.Push? {
      assert moves[|before|].Push?;
    }
  }

  /** Hence each `value` is called with the fold over the current window. */
  lemma EachValueIsFold<A, R(!new)>(user: User<A, R>, moves: seq<Move<R>>)
    requires PopsOnlyRows(moves) && Undoes(user)
    ensures PopsOnlyRows(moves + [Peek])
    ensures var before, after := GroupAfter(user, moves), GroupAfter(user, moves + [Peek]);
            after.valued == before.valued + [if Pushed(moves) then Some(Fold(user, Window(moves))) else None]
  {
    var peeked := moves + [Move<R>.Peek];
    forall i | 0 <= i < |peeked| && peeked[i] == Pop ensures Window(peeked[..i]) != [] {
      assert peeked[..i] == moves[..i];
    }
    assert peeked[..|peeked| - 1] == moves;
    WindowIsFold(user, moves);
  }

  /** The law is not only enough but needed: pushing some rows and popping the oldest leaves exactly what
      `inverse` makes of their fold. */
  lemma LawIsNeeded<A, R(!new)>(user: User<A, R>, oldest: R, rest: seq<R>)
    ensures var moves := Pushes([oldest] + rest) + [Pop];
            && PopsOnlyRows(moves) && Window(moves) == rest
            && GroupAfter(user, moves).boxes == map[1 := user.inverse(Fold(user, [oldest] + rest), oldest)]
  {
    var rows := [oldest] + rest;
    assert rows[1..] == rest;
    PushesThenPop(rows);
    PushesFold(user, rows);
    PushesAreRows(rows);
    PopInverts(user, GroupAfter(user, Pushes(rows)), rows);
    assert (Pushes(rows) + [Move<R>.Pop])[..|rows|] == Pushes(rows);
  }

  lemma PopInverts<A, R(!new)>(user: User<A, R>, g: Group<A>, rows: seq<R>)
    requires rows != [] && Tracks(user, g, true, rows)
    ensures Do(g, CallOf(user, rows, Pop)).boxes == map[1 := user.inverse(Fold(user, rows), rows[0])]
  {
  }

  lemma PushesThenPop<R>(rows: seq<R>)
    requires rows != []
    ensures var moves := Pushes(rows) + [Pop];
            PopsOnlyRows(moves) && Window(moves) == rows[1..]
  {
    var moves := Pushes(rows) + [Move<R>.Pop];
    PushesAreRows(rows);
    assert moves[..|rows|] == Pushes(rows);
    forall i | 0 <= i < |moves| && moves[i] == Pop ensures Window(moves[..i]) != [] {
      assert i == |rows|;
    }
  }

  /** So the law holds exactly when every valid sequence of callbacks is a fresh fold. */
  lemma LawIsExact<A, R(!new)>(user: User<A, R>)
    ensures Undoes(user) <==>
            forall moves: seq<Move<R>> :: PopsOnlyRows(moves) ==>
              Tracks(user, GroupAfter(user, moves), Pushed(moves), Window(moves))
  {
    if Undoes(user) {
      forall moves: seq<Move<R>> | PopsOnlyRows(moves)
        ensures Tracks(user, GroupAfter(user, moves), Pushed(moves), Window(moves))
      {
        WindowIsFold(user, moves);
      }
    } else {
      var oldest: R, rest: seq<R> :| user.inverse(Fold(user, [oldest] + rest), oldest) != Fold(user, rest);
      var moves := Pushes([oldest] + rest) + [Pop];
      LawIsNeeded(user, oldest, rest);
      assert moves[0].Push?;
      assert GroupAfter(user, moves).boxes[1] != Fold(user, Window(moves));
    }
  }

  function Pushes<R>(rows: seq<R>): seq<Move<R>> {
    seq(|rows|, i requires 0 <= i < |rows| => Push(rows[i]))
  }

  lemma {:induction false} PushesAreRows<R>(rows: seq<R>)
    ensures PopsOnlyRows(Pushes(rows)) && Window(Pushes(rows)) == rows
    decreases |rows|
  {
    if rows != [] {
      var before := rows[..|rows| - 1];
      PushesAreRows(before);
      assert Pushes(rows)[..|rows| - 1] == Pushes(before);
      assert rows == before + [rows[|rows| - 1]];
    }
  }

  lemma {:induction false} PushesFold<A, R(!new)>(user: User<A, R>, rows: seq<R>)
    ensures Tracks(user, GroupAfter(user, Pushes(rows)), rows != [], rows)
    decreases |rows|
  {
    if rows != [] {
      var before, last := rows[..|rows| - 1], Push(rows[|rows| - 1]);
      PushesFold(user, before);
      PushesAreRows(before);
      assert Pushes(rows)[..|rows| - 1] == Pushes(before);
      assert rows == before + [rows[|rows| - 1]];
      MoveTracks(user, GroupAfter(user, Pushes(before)), before != [], before, last);
    }
  }
}

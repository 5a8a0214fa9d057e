/**
 Unlock notification (src/unlock_notify.rs) as steps of any number of threads: each waiter blocks on
 its own notification, and each unlock-notify callback fires a list of them. A step is one lock, one
 unlock, one flag access, one wait or one notify; threads interleave freely and waiters may also wake
 for no reason.
 */
module UnlockNotify {
  import opened Wrappers

  datatype Owner = TheWaiter | Callback(c: nat)

  /** Where a waiter stands in `wait`. In `Check` and `Leaving` it holds the mutex. */
  datatype WaiterPc = Start | Check | Asleep | Woken | Leaving | Left

  /** One `UnlockNotification` and the one thread that waits on it. */
  datatype Note = Note(flag: bool, mutex: Option<Owner>, pc: WaiterPc)

  /** Where a callback stands in `fired` for its current notification; it holds the mutex in all but
      the first. */
  datatype FirePc = ToLock | ToSet | ToNotify | ToUnlock

  datatype Firing = Firing(args: seq<nat>, pos: nat, pc: FirePc)

  datatype State = State(notes: seq<Note>, firings: seq<Firing>)

  datatype Action = WaiterStep(n: nat) | SpuriousWakeup(n: nat) | CallbackStep(c: nat)

  // ---------- Steps ----------

  function WaiterMove(x: Note): Option<Note> {
    match x.pc
    case Start => if x.mutex.None? then Some(x.(mutex := Some(TheWaiter), pc := Check)) else None
    case Check =>
      // waiting releases the mutex and goes to sleep in one atomic step
      if x.flag then Some(x.(pc := Leaving)) else Some(x.(mutex := None, pc := Asleep))
    case Asleep => None
    case Woken => if x.mutex.None? then Some(x.(mutex := Some(TheWaiter), pc := Check)) else None
    case Leaving => Some(x.(mutex := None, pc := Left))
    case Left => None
  }

  function FireMove(x: Note, f: Firing, c: nat): Option<(Note, Firing)> {
    match f.pc
    case ToLock => if x.mutex.None? then Some((x.(mutex := Some(Callback(c))), f.(pc := ToSet))) else None
    case ToSet => Some((x.(flag := true), f.(pc := ToNotify)))
    case ToNotify => Some((if x.pc == Asleep then x.(pc := Woken) else x, f.(pc := ToUnlock)))
    case ToUnlock => Some((x.(mutex := None), f.(pos := f.pos + 1, pc := ToLock)))
  }

  /** The state after a step, if the step is enabled. */
  function Act(s: State, a: Action): Option<State> {
    match a
    case WaiterStep(n) =>
      if n >= |s.notes| || WaiterMove(s.notes[n]).None? then None
      else Some(s.(notes := s.notes[n := WaiterMove(s.notes[n]).value]))
    case SpuriousWakeup(n) =>
      if n >= |s.notes| || s.notes[n].pc != Asleep then None
      else Some(s.(notes := s.notes[n := s.notes[n].(pc := Woken)]))
    case CallbackStep(c) =>
      if c >= |s.firings| || s.firings[c].pos >= |s.firings[c].args| then None
      else
        var f := s.firings[c];
        var n := f.args[f.pos];
        if n >= |s.notes| || FireMove(s.notes[n], f, c).None? then None
        else
          var (x', f') := FireMove(s.notes[n], f, c).value;
          Some(State(s.notes[n := x'], s.firings[c := f']))
  }

  /** Waiters and callbacks start in any number; a callback may be over before its waiter begins. */
  ghost predicate Initial(s: State) {
    && (forall n :: 0 <= n < |s.notes| ==> s.notes[n] == Note(false, None, Start))
    && (forall c :: 0 <= c < |s.firings| ==> s.firings[c].pos == 0 && s.firings[c].pc == ToLock)
    && (forall c, p :: 0 <= c < |s.firings| && 0 <= p < |s.firings[c].args| ==> s.firings[c].args[p] < |s.notes|)
  }

  function Execute(s: State, actions: seq<Action>): Option<State>
    decreases |actions|
  {
    if actions == [] then Some(s)
    else
      match Execute(s, actions[..|actions| - 1])
      case None => None
      case Some(mid) => Act(mid, actions[|actions| - 1])
  }

  // ---------- Invariant ----------

  predicate At(f: Firing, n: nat) {
    f.pos < |f.args| && f.args[f.pos] == n
  }

  ghost predicate Inv(s: State) {
    && (forall c :: 0 <= c < |s.firings| ==> FiringInv(s, c))
    && (forall n :: 0 <= n < |s.notes| ==> NoteInv(s, n))
  }

  /** A callback holds the mutex of its current notification unless it is still to lock it, and every
      notification it is done with has its flag set. */
  ghost predicate FiringInv(s: State, c: nat)
    requires c < |s.firings|
  {
    var f := s.firings[c];
    && f.pos <= |f.args|
    && (f.pos == |f.args| ==> f.pc == ToLock)
    && (forall p :: 0 <= p < |f.args| ==> f.args[p] < |s.notes|)
    && (forall p :: 0 <= p < f.pos ==> s.notes[f.args[p]].flag)
    && (f.pos < |f.args| ==>
          (f.pc != ToLock ==> s.notes[f.args[f.pos]].mutex == Some(Callback(c))))
    && (f.pos < |f.args| && (f.pc == ToNotify || f.pc == ToUnlock) ==> s.notes[f.args[f.pos]].flag)
  }

  ghost predicate NoteInv(s: State, n: nat)
    requires n < |s.notes|
  {
    var x := s.notes[n];
    && (x.mutex == Some(TheWaiter) <==> x.pc == Check || x.pc == Leaving)
    && (x.mutex.Some? && x.mutex.value.Callback? ==> Holds(s, x.mutex.value.c, n))
    && (x.pc == Leaving || x.pc == Left ==> x.flag)
    && (x.pc == Asleep && x.flag ==> NotifyPending(s, n))
  }

  predicate Holds(s: State, c: nat, n: nat) {
    c < |s.firings| && At(s.firings[c], n) && s.firings[c].pc != ToLock
  }

  predicate NotifyPending(s: State, n: nat)
    requires n < |s.notes|
  {
    var m := s.notes[n].mutex;
    m.Some? && m.value.Callback? && m.value.c < |s.firings|
    && At(s.firings[m.value.c], n) && s.firings[m.value.c].pc == ToNotify
  }

  lemma WaiterKeepsInv(s: State, n: nat, x: Note)
    requires Inv(s) && n < |s.notes|
    requires WaiterMove(s.notes[n]) == Some(x) || (s.notes[n].pc == Asleep && x == s.notes[n].(pc := Woken))
    ensures Inv(s.(notes := s.notes[n := x]))
  {
    var s' := s.(notes := s.notes[n := x]);
    assert NoteInv(s, n);
    forall c | 0 <= c < |s'.firings| ensures FiringInv(s', c) {
      assert FiringInv(s, c);
    }
    forall m | 0 <= m < |s'.notes| ensures NoteInv(s', m) {
      assert NoteInv(s, m);
    }
  }

  lemma CallbackKeepsInv(s: State, c: nat)
    requires Inv(s) && Act(s, CallbackStep(c)).Some?
    ensures Inv(Act(s, CallbackStep(c)).value)
  {
    var s' := Act(s, CallbackStep(c)).value;
    var n := s.firings[c].args[s.firings[c].pos];
    assert FiringInv(s, c) && NoteInv(s, n);
    forall d | 0 <= d < |s'.firings| ensures FiringInv(s', d) {
      assert FiringInv(s, d);
    }
    forall m | 0 <= m < |s'.notes| ensures NoteInv(s', m) {
      assert NoteInv(s, m);
    }
  }

  lemma ActKeepsInv(s: State, a: Action)
    requires Inv(s) && Act(s, a).Some?
    ensures Inv(Act(s, a).value)
  {
    match a {
      case WaiterStep(n) => WaiterKeepsInv(s, n, WaiterMove(s.notes[n]).value);
      case SpuriousWakeup(n) => WaiterKeepsInv(s, n, s.notes[n].(pc := Woken));
      case CallbackStep(c) => CallbackKeepsInv(s, c);
    }
  }

  lemma {:induction false} ReachableInv(s: State, actions: seq<Action>)
    requires Initial(s) && Execute(s, actions).Some?
    ensures Inv(Execute(s, actions).value)
    decreases |actions|
  {
    if actions != [] {
      ReachableInv(s, actions[..|actions| - 1]);
      ActKeepsInv(Execute(s, actions[..|actions| - 1]).value, actions[|actions| - 1]);
    }
  }

  // ---------- Safety ----------

  /** In every interleaving: `wait` returns only after the flag was set, and a waiter is never asleep with
      the flag set and no notification on its way. */
  lemma NoLostWakeup(s: State, actions: seq<Action>, n: nat)
    requires Initial(s) && Execute(s, actions).Some?
    requires n < |s.notes|
    ensures var t := Execute(s, actions).value;
            && |t.notes| == |s.notes|
            && (t.notes[n].pc == Left ==> t.notes[n].flag)
            && (t.notes[n].pc == Asleep && t.notes[n].flag ==> NotifyPending(t, n))
  {
    ReachableInv(s, actions);
    SizesKept(s, actions);
    assert NoteInv(Execute(s, actions).value, n);
  }

  lemma {:induction false} SizesKept(s: State, actions: seq<Action>)
    requires Execute(s, actions).Some?
    ensures var t := Execute(s, actions).value;
            && |t.notes| == |s.notes| && |t.firings| == |s.firings|
            && forall c :: 0 <= c < |s.firings| ==> t.firings[c].args == s.firings[c].args
    decreases |actions|
  {
    if actions != [] {
      SizesKept(s, actions[..|actions| - 1]);
    }
  }

  // ---------- Lifetime ----------

  /** SQLite delivers a registered notification at most once. */
  ghost predicate DeliveredOnce(firings: seq<Firing>) {
    forall c, p, d, q |
        && 0 <= c < |firings| && 0 <= p < |firings[c].args|
        && 0 <= d < |firings| && 0 <= q < |firings[d].args| ::
      firings[c].args[p] == firings[d].args[q] ==> c == d && p == q
  }

  ghost predicate SetBy(s: State, n: nat, c: nat, p: nat) {
    && c < |s.firings| && p < |s.firings[c].args| && s.firings[c].args[p] == n
    && (p < s.firings[c].pos
        || (p == s.firings[c].pos && (s.firings[c].pc == ToNotify || s.firings[c].pc == ToUnlock)))
  }

  ghost predicate FlagHasSetter(s: State, n: nat)
    requires n < |s.notes|
  {
    s.notes[n].flag ==> exists c: nat, p: nat :: SetBy(s, n, c, p)
  }

  /** No callback has anything left to do with notification `n`. */
  ghost predicate Untouchable(s: State, n: nat) {
    forall c, p :: 0 <= c < |s.firings| && 0 <= p < |s.firings[c].args| && s.firings[c].args[p] == n
      ==> p < s.firings[c].pos
  }

  ghost predicate LifetimeInv(s: State) {
    forall n :: 0 <= n < |s.notes| ==>
      FlagHasSetter(s, n) && (s.notes[n].pc == Leaving || s.notes[n].pc == Left ==> Untouchable(s, n))
  }

  lemma SetterStays(s: State, a: Action, n: nat, c: nat, p: nat)
    requires Inv(s) && Act(s, a).Some? && SetBy(s, n, c, p)
    ensures SetBy(Act(s, a).value, n, c, p)
  {
  }

  /** When a waiter that holds the mutex sees the flag, the callback that set it is through. */
  lemma SeenMeansDone(s: State, n: nat)
    requires Inv(s) && DeliveredOnce(s.firings) && n < |s.notes|
    requires FlagHasSetter(s, n) && s.notes[n].flag && s.notes[n].mutex == Some(TheWaiter)
    ensures Untouchable(s, n)
  {
    var c: nat, p: nat :| SetBy(s, n, c, p);
    assert FiringInv(s, c);
    assert p < s.firings[c].pos;
  }

  lemma FlagKeepsSetter(s: State, a: Action, n: nat)
    requires Inv(s) && Act(s, a).Some? && n < |s.notes| && FlagHasSetter(s, n)
    ensures FlagHasSetter(Act(s, a).value, n)
  {
    var s' := Act(s, a).value;
    if s.notes[n].flag {
      var c: nat, p: nat :| SetBy(s, n, c, p);
      SetterStays(s, a, n, c, p);
    } else if s'.notes[n].flag {
      assert SetBy(s', n, a.c, s.firings[a.c].pos);
    }
  }

  lemma LeavingIsUntouchable(s: State, a: Action, n: nat)
    requires Inv(s) && DeliveredOnce(s.firings) && Act(s, a).Some? && n < |s.notes| && FlagHasSetter(s, n)
    requires s.notes[n].pc == Leaving || s.notes[n].pc == Left ==> Untouchable(s, n)
    ensures var s' := Act(s, a).value;
            s'.notes[n].pc == Leaving || s'.notes[n].pc == Left ==> Untouchable(s', n)
  {
    assert NoteInv(s, n);
    if s.notes[n].pc == Check && s.notes[n].flag {
      SeenMeansDone(s, n);
    }
  }

  lemma ActKeepsLifetime(s: State, a: Action)
    requires Inv(s) && LifetimeInv(s) && DeliveredOnce(s.firings) && Act(s, a).Some?
    ensures LifetimeInv(Act(s, a).value)
  {
    var s' := Act(s, a).value;
    forall n | 0 <= n < |s'.notes|
      ensures FlagHasSetter(s', n) && (s'.notes[n].pc == Leaving || s'.notes[n].pc == Left ==> Untouchable(s', n))
    {
      FlagKeepsSetter(s, a, n);
      LeavingIsUntouchable(s, a, n);
    }
  }

  /** Safe lifetime: `un` lives on the waiter's stack, and once the waiter has left `wait` no callback
      will ever touch it again. */
  lemma {:induction false} NoUseAfterWait(s: State, actions: seq<Action>)
    requires Initial(s) && DeliveredOnce(s.firings) && Execute(s, actions).Some?
    ensures LifetimeInv(Execute(s, actions).value)
    decreases |actions|
  {
    if actions != [] {
      var before := actions[..|actions| - 1];
      NoUseAfterWait(s, before);
      ReachableInv(s, before);
      SizesKept(s, before);
      ActKeepsLifetime(Execute(s, before).value, actions[|actions| - 1]);
    }
  }

  // ---------- Progress ----------

  predicate Quiet(s: State) {
    && (forall n :: 0 <= n < |s.notes| ==> Act(s, WaiterStep(n)).None?)
    && (forall c :: 0 <= c < |s.firings| ==> Act(s, CallbackStep(c)).None?)
  }

  /** A system that can only move by spurious wakeups has delivered every callback, and every waiter
      named by one has left. */
  lemma QuietMeansDelivered(s: State, actions: seq<Action>, c: nat, p: nat)
    requires Initial(s) && Execute(s, actions).Some? && Quiet(Execute(s, actions).value)
    requires c < |s.firings| && p < |s.firings[c].args|
    ensures var t := Execute(s, actions).value;
            var n := s.firings[c].args[p];
            && n < |t.notes| && t.notes[n].pc == Left
            && c < |t.firings| && t.firings[c].pos == |t.firings[c].args|
  {
    ReachableInv(s, actions);
    SizesKept(s, actions);
    QuietState(Execute(s, actions).value, c, p);
  }

  lemma QuietState(t: State, c: nat, p: nat)
    requires Inv(t) && Quiet(t)
    requires c < |t.firings| && p < |t.firings[c].args|
    ensures var n := t.firings[c].args[p];
            n < |t.notes| && t.notes[n].pc == Left && t.firings[c].pos == |t.firings[c].args|
  {
    var f := t.firings[c];
    assert FiringInv(t, c);
    assert Act(t, CallbackStep(c)).None?;
    if f.pos < |f.args| {
      QuietIsUnlocked(t, f.args[f.pos]);
    }
    var n := f.args[p];
    QuietIsUnlocked(t, n);
    assert NoteInv(t, n) && Act(t, WaiterStep(n)).None?;
  }

  /** Whoever holds a mutex can take a step. */
  lemma QuietIsUnlocked(t: State, n: nat)
    requires Inv(t) && n < |t.notes|
    ensures Quiet(t) ==> t.notes[n].mutex == None
  {
    assert NoteInv(t, n);
    match t.notes[n].mutex {
      case None =>
      case Some(TheWaiter) => assert Act(t, WaiterStep(n)).Some?;
      case Some(Callback(c)) => assert Act(t, CallbackStep(c)).Some?;
    }
  }

  /** How many more steps a waiter can take before it sleeps or leaves, given the flag. */
  function WaiterRank(x: Note): nat {
    if x.flag then
      match x.pc case Start => 3 case Asleep => 4 case Woken => 3 case Check => 2 case Leaving => 1 case Left => 0
    else
      match x.pc case Start => 7 case Asleep => 5 case Woken => 7 case Check => 6 case Leaving => 1 case Left => 0
  }

  function FiringRank(f: Firing): nat {
    if f.pos >= |f.args| then 0
    else
      4 * (|f.args| - f.pos) - (match f.pc case ToLock => 0 case ToSet => 1 case ToNotify => 2 case ToUnlock => 3)
  }

  function NotesRank(notes: seq<Note>): nat {
    if notes == [] then 0 else WaiterRank(notes[0]) + NotesRank(notes[1..])
  }

  function FiringsRank(firings: seq<Firing>): nat {
    if firings == [] then 0 else FiringRank(firings[0]) + FiringsRank(firings[1..])
  }

  function Rank(s: State): nat {
    NotesRank(s.notes) + FiringsRank(s.firings)
  }

  lemma {:induction false} NotesRankUpdate(notes: seq<Note>, n: nat, x: Note)
    requires n < |notes|
    ensures NotesRank(notes[n := x]) == NotesRank(notes) - WaiterRank(notes[n]) + WaiterRank(x)
  {
    if n > 0 {
      assert notes[n := x][1..] == notes[1..][n - 1 := x];
      NotesRankUpdate(notes[1..], n - 1, x);
    }
  }

  lemma {:induction false} FiringsRankUpdate(firings: seq<Firing>, c: nat, f: Firing)
    requires c < |firings|
    ensures FiringsRank(firings[c := f]) == FiringsRank(firings) - FiringRank(firings[c]) + FiringRank(f)
  {
    if c > 0 {
      assert firings[c := f][1..] == firings[1..][c - 1 := f];
      FiringsRankUpdate(firings[1..], c - 1, f);
    }
  }

  lemma CallbackRanksDown(s: State, c: nat)
    requires Inv(s) && Act(s, CallbackStep(c)).Some?
    ensures Rank(Act(s, CallbackStep(c)).value) < Rank(s)
  {
    var f := s.firings[c];
    var n := f.args[f.pos];
    assert FiringInv(s, c);
    var (x', f') := FireMove(s.notes[n], f, c).value;
    MoveRanksDown(s.notes[n], f, c);
    NotesRankUpdate(s.notes, n, x');
    FiringsRankUpdate(s.firings, c, f');
  }

  /** Setting the flag makes up for what the woken waiter still has to do. */
  lemma MoveRanksDown(x: Note, f: Firing, c: nat)
    requires f.pos < |f.args| && FireMove(x, f, c).Some?
    requires f.pc == ToNotify ==> x.flag
    ensures var (x', f') := FireMove(x, f, c).value;
            WaiterRank(x') + FiringRank(f') < WaiterRank(x) + FiringRank(f)
  {
  }

  /** Every step but a spurious wakeup brings the system strictly closer to quiet. */
  lemma StepsRankDown(s: State, a: Action)
    requires Inv(s) && Act(s, a).Some? && !a.SpuriousWakeup?
    ensures Rank(Act(s, a).value) < Rank(s)
  {
    match a {
      case WaiterStep(n) => NotesRankUpdate(s.notes, n, WaiterMove(s.notes[n]).value);
      case CallbackStep(c) => CallbackRanksDown(s, c);
    }
  }

  /** So a run without spurious wakeups is no longer than the rank it starts with: with the previous
      results, every waiter a callback names returns from `wait`. */
  lemma {:induction false} RunsAreBounded(s: State, actions: seq<Action>)
    requires Initial(s) && Execute(s, actions).Some?
    requires forall i :: 0 <= i < |actions| ==> !actions[i].SpuriousWakeup?
    ensures |actions| + Rank(Execute(s, actions).value) <= Rank(s)
    decreases |actions|
  {
    if actions != [] {
      var before := actions[..|actions| - 1];
      RunsAreBounded(s, before);
      ReachableInv(s, before);
      StepsRankDown(Execute(s, before).value, actions[|actions| - 1]);
    }
  }
}

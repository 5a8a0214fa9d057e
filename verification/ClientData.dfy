/**
 Ownership of the busy callback (src/busy.rs) through `set_clientdata` (src/inner_connection.rs).

 SQLite holds two pointers to the user's boxed callback: the argument it calls the handler with, and the
 client data entry whose destructor frees the box. Between two calls into SQLite either may be read, so
 what matters is the whole list of states a registration goes through.
 */
module ClientData {
  import opened Wrappers

  type Box = nat

  /** `handler` is the argument SQLite would call back with, `stored` the client data entry. */
  datatype Registry = Registry(handler: Option<Box>, stored: Option<Box>, live: set<Box>, freed: multiset<Box>, next: Box)

  function Empty(): Registry {
    Registry(None, None, {}, multiset{}, 0)
  }

  function Alloc(r: Registry): Registry {
    r.(live := r.live + {r.next}, next := r.next + 1)
  }

  function Free(r: Registry, b: Option<Box>): Registry {
    if b.None? then r else r.(live := r.live - {b.value}, freed := r.freed + multiset{b.value})
  }

  /** Only a new entry needs memory. */
  predicate OutOfMemory(r: Registry, b: Option<Box>, noMemory: bool) {
    noMemory && b.Some? && r.stored.None?
  }

  /** `sqlite3_set_clientdata` destroys the old data before it stores the new, and the new data if it
      cannot store it. */
  function Store(r: Registry, b: Option<Box>, noMemory: bool): Registry {
    if OutOfMemory(r, b, noMemory) then Free(r, b) else Free(r, r.stored).(stored := b)
  }

  /** How the calls into SQLite turn out. */
  datatype Luck = Luck(presetOk: bool, noMemory: bool)

  datatype Op = BusyHandler(some: bool, luck: Luck) | BusyTimeout(luck: Luck) | PragmaBusyTimeout

  /** The states `busy_handler` goes through: boxing, registering, storing. */
  function HandlerStates(r: Registry, some: bool, luck: Luck): seq<Registry> {
    var b := if some then Some(r.next) else None;
    var boxed := if some then Alloc(r) else r;
    if !luck.presetOk then [boxed, Free(boxed, b)]
    else
      var registered := boxed.(handler := b);
      [boxed, registered, Store(registered, b, luck.noMemory)]
  }

  /** SQLite's own timeout handler takes the callback's place, then the entry is cleared. */
  function TimeoutStates(r: Registry, luck: Luck): seq<Registry> {
    if !luck.presetOk then [r]
    else [r.(handler := None), Store(r.(handler := None), None, luck.noMemory)]
  }

  function States(r: Registry, op: Op): (s: seq<Registry>)
    ensures s != []
  {
    match op
    case BusyHandler(some, luck) => HandlerStates(r, some, luck)
    case BusyTimeout(luck) => TimeoutStates(r, luck)
    case PragmaBusyTimeout => [r.(handler := None)]
  }

  function After(r: Registry, op: Op): Registry {
    States(r, op)[|States(r, op)| - 1]
  }

  /** SQLite's pointer is null or a live box. */
  predicate Safe(r: Registry) {
    r.handler.Some? ==> r.handler.value in r.live
  }

  class Connection {
    var handler: Option<Box>
    var stored: Option<Box>
    var live: set<Box>
    var freed: multiset<Box>
    var next: Box
    /** Every state so far, newest last. */
    var trace: seq<Registry>

    constructor ()
      ensures State() == Empty() && trace == []
    {
      handler, stored, live, freed, next, trace := None, None, {}, multiset{}, 0, [];
    }

    function State(): Registry
      reads this
    {
      Registry(handler, stored, live, freed, next)
    }

    method Observe()
      modifies this`trace
      ensures trace == old(trace) + [State()]
    {
      trace := trace + [State()];
    }

    method FreeBox(b: Option<Box>)
      modifies this`live, this`freed
      ensures State() == Free(old(State()), b)
    {
      if b.Some? {
        live, freed := live - {b.value}, freed + multiset{b.value};
      }
    }

    method StoreClientdata(b: Option<Box>, noMemory: bool) returns (ok: bool)
      modifies this
      ensures State() == Store(old(State()), b, noMemory) && trace == old(trace)
      ensures ok <==> !OutOfMemory(old(State()), b, noMemory)
    {
      if noMemory && b.Some? && stored.None? {
        FreeBox(b);
        return false;
      }
      FreeBox(stored);
      stored := b;
      return true;
    }

    method BusyHandler(some: bool, luck: Luck) returns (ok: bool)
      modifies this
      ensures State() == After(old(State()), Op.BusyHandler(some, luck))
      ensures trace == old(trace) + States(old(State()), Op.BusyHandler(some, luck))
      ensures ok <==> luck.presetOk && !(luck.noMemory && some && old(stored).None?)
    {
      ghost var states := States(State(), Op.BusyHandler(some, luck));
      var b := None;
      if some {
        b := Some(next);
        live, next := live + {next}, next + 1;
      }
      Observe();
      assert trace == old(trace) + states[..1];
      if !luck.presetOk {
        FreeBox(b);
        Observe();
        assert trace == old(trace) + states[..2];
        return false;
      }
      handler := b;
      Observe();
      assert trace == old(trace) + states[..2];
      ok := StoreClientdata(b, luck.noMemory);
      Observe();
      assert trace == old(trace) + states[..3];
    }

    method BusyTimeout(luck: Luck) returns (ok: bool)
      modifies this
      ensures State() == After(old(State()), Op.BusyTimeout(luck))
      ensures trace == old(trace) + States(old(State()), Op.BusyTimeout(luck))
      ensures ok == luck.presetOk
    {
      if !luck.presetOk {
        Observe();
        return false;
      }
      handler := None;
      Observe();
      ok := StoreClientdata(None, luck.noMemory);
      Observe();
    }
  }

  // ---------- Whole runs ----------

  function Run(ops: seq<Op>): Registry {
    if ops == [] then Empty() else After(Run(ops[..|ops| - 1]), ops[|ops| - 1])
  }

  /** The registration that cannot be stored. */
  predicate Fatal(r: Registry, op: Op) {
    op.BusyHandler? && op.some && op.luck.presetOk && op.luck.noMemory && r.stored.None?
  }

  /** Every box was made once and is either the stored one or freed exactly once. */
  ghost predicate Conserved(r: Registry) {
    && (forall b: Box :: r.freed[b] == if b < r.next && b !in r.live then 1 else 0)
    && (forall b: Box :: b in r.live ==> b < r.next)
    && r.live == (if r.stored.Some? then {r.stored.value} else {})
  }

  ghost predicate Inv(r: Registry) {
    Conserved(r) && Safe(r)
  }

  /** Starting well, every state of a call is safe exactly unless the call is the registration that cannot
      be stored, and then the call ends well; and a callback is freed only after a state in which SQLite
      already points elsewhere. */
  lemma CallIsSafe(r: Registry, op: Op)
    requires Inv(r)
    ensures (forall i :: 0 <= i < |States(r, op)| ==> Safe(States(r, op)[i])) <==> !Fatal(r, op)
    ensures !Fatal(r, op) ==> Inv(After(r, op))
    ensures forall i :: 0 <= i < |States(r, op)| && r.handler.Some? && r.handler.value !in States(r, op)[i].live ==>
              0 < i && States(r, op)[i - 1].handler != r.handler
  {
    if op.BusyHandler? {
      HandlerIsSafe(r, op.some, op.luck);
      if Fatal(r, op) {
        assert !Safe(States(r, op)[2]);
      }
    }
  }

  lemma HandlerIsSafe(r: Registry, some: bool, luck: Luck)
    requires Inv(r)
    ensures var op, states := Op.BusyHandler(some, luck), HandlerStates(r, some, luck);
            && ((forall i :: 0 <= i < |states| ==> Safe(states[i])) <==> !Fatal(r, op))
            && (!Fatal(r, op) ==> Inv(states[|states| - 1]))
            && (forall i :: 0 <= i < |states| && r.handler.Some? && r.handler.value !in states[i].live ==>
                  0 < i && states[i - 1].handler != r.handler)
  {
    if some {
      assert r.next !in r.live;
    }
    if Fatal(r, Op.BusyHandler(some, luck)) {
      assert !Safe(HandlerStates(r, some, luck)[2]);
    }
  }

  /** What a registration comes to: a callback is in SQLite's hands and stored as the one new box, or none is
      and none is stored; and if SQLite refuses, the new box is gone and everything else as before. */
  lemma RegistrationTakes(r: Registry, some: bool, luck: Luck)
    requires Inv(r) && !Fatal(r, Op.BusyHandler(some, luck))
    ensures var after := After(r, Op.BusyHandler(some, luck));
            var box := if some then Some(r.next) else None;
            if luck.presetOk then
              after.handler == after.stored == box && after.live == (if some then {r.next} else {})
            else
              after.handler == r.handler && after.stored == r.stored && after.live == r.live
    ensures var after := After(r, Op.BusyTimeout(luck));
            if luck.presetOk then after.handler == after.stored == None && after.live == {} else after == r
  {
    if some {
      assert r.next !in r.live;
      assert luck.presetOk ==> Free(Alloc(r), r.stored).live == {r.next};
      assert !luck.presetOk ==> Free(Alloc(r), Some(r.next)).live == r.live;
    }
    assert Free(r, r.stored).live == {};
  }

  /** That call exists: on a fresh connection, with no memory for the first entry, SQLite is left with a
      callback that has been freed. */
  lemma FirstRegistrationWithoutMemory()
    ensures var op := Op.BusyHandler(true, Luck(true, true));
            && Inv(Empty()) && Fatal(Empty(), op)
            && !Safe(After(Empty(), op)) && After(Empty(), op).freed == multiset{0}
  {
    var boxed := Alloc(Empty()).(handler := Some(0));
    assert After(Empty(), Op.BusyHandler(true, Luck(true, true))) == Store(boxed, Some(0), true);
  }

  ghost predicate NoneFatal(ops: seq<Op>) {
    forall i :: 0 <= i < |ops| ==> !Fatal(Run(ops[..i]), ops[i])
  }

  lemma NoneFatalBefore(ops: seq<Op>, n: nat)
    requires NoneFatal(ops) && n <= |ops|
    ensures NoneFatal(ops[..n])
  {
    forall i | 0 <= i < n ensures !Fatal(Run(ops[..n][..i]), ops[..n][i]) {
      assert ops[..n][..i] == ops[..i];
    }
  }

  lemma {:induction false} RunKeepsInv(ops: seq<Op>)
    requires NoneFatal(ops)
    ensures Inv(Run(ops))
    decreases |ops|
  {
    if ops != [] {
      var n := |ops| - 1;
      NoneFatalBefore(ops, n);
      RunKeepsInv(ops[..n]);
      CallIsSafe(Run(ops[..n]), ops[n]);
    }
  }

  /** Over every run in which no registration runs out of memory: at each step of each call SQLite's
      pointer is null or a live box, and every box is live in the store or freed exactly once. */
  lemma RunsAreSafe(ops: seq<Op>)
    requires NoneFatal(ops)
    ensures Inv(Run(ops))
    ensures forall i, k :: 0 <= i < |ops| && 0 <= k < |States(Run(ops[..i]), ops[i])| ==>
              Safe(States(Run(ops[..i]), ops[i])[k])
  {
    RunKeepsInv(ops);
    forall i | 0 <= i < |ops|
      ensures forall k :: 0 <= k < |States(Run(ops[..i]), ops[i])| ==> Safe(States(Run(ops[..i]), ops[i])[k])
    {
      NoneFatalBefore(ops, i);
      RunKeepsInv(ops[..i]);
      CallIsSafe(Run(ops[..i]), ops[i]);
    }
  }

  /** Closing the connection frees the box still stored, and with it every box was freed exactly once. */
  lemma CloseFreesTheLast(ops: seq<Op>)
    requires NoneFatal(ops)
    ensures var r := Free(Run(ops), Run(ops).stored);
            r.live == {} && forall b: Box :: b < r.next ==> r.freed[b] == 1
  {
    RunKeepsInv(ops);
    FreeTheLast(Run(ops));
  }

  lemma FreeTheLast(r: Registry)
    requires Inv(r)
    ensures var freed := Free(r, r.stored);
            freed.live == {} && forall b: Box :: b < freed.next ==> freed.freed[b] == 1
  {
  }

  // ---------- The timeout ----------

  const U64_LIMIT: nat := 0x1_0000_0000_0000_0000
  const I32_MAX: nat := 0x7FFF_FFFF

  /** `Duration` to milliseconds in checked 64-bit arithmetic; `None` is the panic "too big". */
  function Millis(secs: nat, subsecMillis: nat): (ms: Option<nat>)
    requires secs < 0x1_0000_0000_0000_0000 && subsecMillis < 1000
    ensures ms == None <==> 1000 * secs + subsecMillis > 0x7FFF_FFFF
    ensures ms.Some? ==> ms.value == 1000 * secs + subsecMillis
  {
    if secs * 1000 >= U64_LIMIT then None
    else if secs * 1000 + subsecMillis >= U64_LIMIT then None
    else if secs * 1000 + subsecMillis > I32_MAX then None
    else Some(secs * 1000 + subsecMillis)
  }
}

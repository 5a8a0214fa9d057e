/**
 What the statement cache means for its clients, over every run: it cannot be told from no cache at
 all, and a larger capacity never turns a hit into a miss.
 */
module CacheRuns {
  import opened Wrappers
  import opened StatementCache

  // ---------- A connection without a cache ----------

  /** All a client can see of a statement in its hands. */
  datatype View = View(sql: string, empty: bool, running: bool, bindings: map<nat, int>, rows: bool)

  function NewView(compile: string -> Compiled, sql: string): Option<View> {
    var text := Trim(sql);
    match compile(text)
    case Refused(_) => None
    case Empty => Some(View(text, true, false, map[], false))
    case Prepared => Some(View(text, false, false, map[], false))
  }

  predicate Has(views: seq<Option<View>>, t: nat, rows: bool) {
    t < |views| && views[t].Some? && views[t].value.rows == rows
  }

  /** Each request compiles its trimmed text afresh; there are no handles and there is no cache. */
  function PlainStep(compile: string -> Compiled, views: seq<Option<View>>, op: Op): seq<Option<View>> {
    match op
    case Get(sql, _) => views + [NewView(compile, sql)]
    case Bind(t, index, value) =>
      if !Has(views, t, false) || views[t].value.empty then views
      else
        var v := views[t].value;
        views[t := Some(v.(bindings := v.bindings[index := value]))]
    case OpenRows(t) =>
      if Has(views, t, false) then views[t := Some(views[t].value.(rows := true))] else views
    case StepRows(t, more) =>
      if Has(views, t, true) && !views[t].value.empty then
        views[t := Some(views[t].value.(running := more))]
      else views
    case CloseRows(t) =>
      if Has(views, t, true) then views[t := Some(views[t].value.(rows := false, running := false))] else views
    case Return(t) => if Has(views, t, false) then views[t := None] else views
    case Discard(t) => if Has(views, t, false) then views[t := None] else views
    case Flush => views
    case Resize(_) => views
  }

  function PlainRun(compile: string -> Compiled, ops: seq<Op>): seq<Option<View>>
    decreases |ops|
  {
    if ops == [] then []
    else PlainStep(compile, PlainRun(compile, ops[..|ops| - 1]), ops[|ops| - 1])
  }

  /** What a text compiles to depends on the text alone. In particular every prepare may succeed. */
  ghost predicate Consistent(compile: string -> Compiled, ops: seq<Op>) {
    forall i :: 0 <= i < |ops| && ops[i].Get? ==> ops[i].outcome == compile(Trim(ops[i].sql))
  }

  // ---------- What the cached connection shows ----------

  function ViewOf(c: Checkout, db: Sqlite): View
    requires c.raw.key.Some?
  {
    var h := c.raw.ptr;
    if h in db.live then View(db.live[h].sql, false, db.live[h].running, db.live[h].bindings, c.rows)
    else View(c.raw.key.value, true, false, map[], c.rows)
  }

  ghost function ViewAt(w: World, t: nat): Option<View>
    requires Inv(w) && t < |w.out|
  {
    if w.out[t].None? then None
    else
      assert GoodCheckout(w.out[t].value, w.cache.db);
      Some(ViewOf(w.out[t].value, w.cache.db))
  }

  ghost function Views(w: World): seq<Option<View>>
    requires Inv(w)
  {
    seq(|w.out|, t requires 0 <= t < |w.out| => ViewAt(w, t))
  }

  /** Only texts with a statement in them ever reach the cache. */
  ghost predicate Compiles(compile: string -> Compiled, w: World) {
    && (forall e :: e in w.cache.entries ==> compile(e.key) == Prepared)
    && (forall t :: 0 <= t < |w.out| && w.out[t].Some? && w.out[t].value.raw.ptr != 0 ==>
          w.out[t].value.raw.key.Some? && compile(w.out[t].value.raw.key.value) == Prepared)
  }

  lemma CompilesKept(compile: string -> Compiled, w: World, op: Op)
    requires Inv(w) && Compiles(compile, w)
    requires op.Get? ==> op.outcome == compile(Trim(op.sql))
    ensures Compiles(compile, Step(w, op))
  {
    match op {
      case Get(sql, _) =>
        WithoutMembers(w.cache.entries, Trim(sql));
        FindFacts(w.cache.entries, Trim(sql));
      case Return(t) =>
        if Holds(w, t, false) && w.out[t].value.raw.ptr != 0 {
          var raw := w.out[t].value.raw;
          InsertMembers(w.cache.entries, w.cache.capacity, raw.key.value, raw);
        }
      case _ =>
    }
  }

  /** A handle other than those a step touches shows the same statement afterwards. */
  lemma OthersUnchanged(w: World, op: Op, t: nat, u: nat)
    requires Inv(w) && Inv(Step(w, op)) && t < |w.out| && u < |w.out| && u != t
    requires op == Return(t) || op == Discard(t)
    ensures ViewAt(Step(w, op), u) == ViewAt(w, u)
  {
    if Holds(w, t, false) && w.out[u].Some? && w.out[u].value.raw.ptr != 0 {
      var raw := w.out[t].value.raw;
      var h := w.out[u].value.raw.ptr;
      var w' := Step(w, op);
      assert w'.out[u] == w.out[u];
      assert GoodCheckout(w.out[u].value, w.cache.db) && GoodCheckout(w'.out[u].value, w'.cache.db);
      CheckoutIsAlone(w, u);
      assert OutPtr(w.out[t]) != h;
      if op == Return(t) && raw.ptr != 0 {
        assert GoodCheckout(w.out[t].value, w.cache.db);
        DropAllFacts(ClearBindings(w.cache.db, raw.ptr),
                     LruInsert(w.cache.entries, w.cache.capacity, raw.key.value, raw).1);
      }
    }
  }

  lemma DropsUnseen(w: World, cache: CacheState, dropped: seq<Raw>)
    requires Inv(w) && Inv(World(cache, w.out)) && cache.db == DropAll(w.cache.db, dropped)
    ensures Views(World(cache, w.out)) == Views(w)
  {
    DropAllFacts(w.cache.db, dropped);
    forall u | 0 <= u < |w.out| ensures ViewAt(World(cache, w.out), u) == ViewAt(w, u) {
      if w.out[u].Some? {
        assert GoodCheckout(w.out[u].value, w.cache.db) && GoodCheckout(w.out[u].value, cache.db);
      }
    }
  }

  /** Hit or miss, what is handed out looks freshly compiled from the trimmed request. */
  lemma NewestShows(compile: string -> Compiled, w: World, op: Op)
    requires Inv(w) && Inv(Step(w, op)) && Compiles(compile, w)
    requires op.Get? && op.outcome == compile(Trim(op.sql))
    ensures |Step(w, op).out| == |w.out| + 1 && ViewAt(Step(w, op), |w.out|) == NewView(compile, op.sql)
  {
    var key := Trim(op.sql);
    FindFacts(w.cache.entries, key);
    match Find(w.cache.entries, key) {
      case Some(raw) =>
        assert GoodEntry(Entry(key, raw), w.cache.db);
      case None =>
    }
  }

  lemma GetKeepsOthers(w: World, op: Op, u: nat)
    requires Inv(w) && Inv(Step(w, op)) && op.Get? && u < |w.out|
    ensures u < |Step(w, op).out| && ViewAt(Step(w, op), u) == ViewAt(w, u)
  {
    PrepareGrows(w.cache.db, Trim(op.sql), op.outcome);
    if w.out[u].Some? {
      assert GoodCheckout(w.out[u].value, w.cache.db);
      assert w.out[u].value.raw.ptr in w.cache.db.live ==> w.out[u].value.raw.ptr < w.cache.db.next;
    }
  }

  lemma GetShows(compile: string -> Compiled, w: World, op: Op)
    requires Inv(w) && Inv(Step(w, op)) && Compiles(compile, w)
    requires op.Get? && op.outcome == compile(Trim(op.sql))
    ensures Views(Step(w, op)) == PlainStep(compile, Views(w), op)
  {
    var after := Views(Step(w, op));
    NewestShows(compile, w, op);
    forall u | 0 <= u < |w.out| ensures after[u] == Views(w)[u] {
      GetKeepsOthers(w, op, u);
    }
    assert after == Views(w) + [NewView(compile, op.sql)];
  }

  lemma TakenShows(compile: string -> Compiled, w: World, op: Op)
    requires Inv(w) && Inv(Step(w, op)) && (op.Return? || op.Discard?)
    ensures Views(Step(w, op)) == PlainStep(compile, Views(w), op)
  {
    var t := op.t;
    if Holds(w, t, false) {
      ViewSame(w, t);
      assert Views(w)[t] == ViewAt(w, t);
      TakenIsGone(w, op);
    } else if t < |w.out| && w.out[t].Some? {
      ViewSame(w, t);
      assert Views(w)[t] == ViewAt(w, t);
    }
  }

  lemma TakenIsGone(w: World, op: Op)
    requires Inv(w) && Inv(Step(w, op)) && (op.Return? || op.Discard?) && Holds(w, op.t, false)
    ensures Views(Step(w, op)) == Views(w)[op.t := None]
  {
    forall u | 0 <= u < |w.out| && u != op.t ensures ViewAt(Step(w, op), u) == ViewAt(w, u) {
      OthersUnchanged(w, op, op.t, u);
    }
    assert ViewAt(Step(w, op), op.t) == None;
  }

  /** Editing one checked-out statement shows in that view and in no other. */
  lemma EditShows(w: World, t: nat, c: Checkout, s: Stmt)
    requires Inv(w) && t < |w.out| && w.out[t].Some? && c.raw == w.out[t].value.raw
    requires Inv(WithDb(w.(out := w.out[t := Some(c)]), WithStmt(w.cache.db, c.raw.ptr, s)))
    requires c.raw.ptr in w.cache.db.live ==> s.sql == w.cache.db.live[c.raw.ptr].sql
    ensures var w' := WithDb(w.(out := w.out[t := Some(c)]), WithStmt(w.cache.db, c.raw.ptr, s));
            var v := ViewAt(w, t).value;
            Views(w') == Views(w)[t := Some(if v.empty then v.(rows := c.rows)
                                            else View(v.sql, false, s.running, s.bindings, c.rows))]
  {
    var w' := WithDb(w.(out := w.out[t := Some(c)]), WithStmt(w.cache.db, c.raw.ptr, s));
    assert GoodCheckout(w.out[t].value, w.cache.db);
    if c.raw.ptr != 0 {
      CheckoutIsAlone(w, t);
    }
    forall u | 0 <= u < |w.out| && u != t ensures ViewAt(w', u) == ViewAt(w, u) {
      if w.out[u].Some? {
        assert GoodCheckout(w.out[u].value, w.cache.db);
        assert c.raw.ptr != 0 ==> OutPtr(w.out[u]) != c.raw.ptr;
      }
    }
  }

  lemma ViewSame(w: World, t: nat)
    requires Inv(w) && t < |w.out| && w.out[t].Some?
    ensures var c := w.out[t].value;
            var v := ViewAt(w, t);
            && v.Some? && v.value.rows == c.rows
            && (v.value.empty <==> c.raw.ptr !in w.cache.db.live)
            && (v.value.empty ==> !v.value.running)
            && (c.raw.ptr in w.cache.db.live ==>
                  v.value.running == w.cache.db.live[c.raw.ptr].running
                  && v.value.bindings == w.cache.db.live[c.raw.ptr].bindings)
  {
    assert GoodCheckout(w.out[t].value, w.cache.db);
  }

  lemma BindShows(compile: string -> Compiled, w: World, t: nat, index: nat, value: int)
    requires Inv(w) && Inv(Step(w, Bind(t, index, value)))
    ensures Views(Step(w, Bind(t, index, value))) == PlainStep(compile, Views(w), Bind(t, index, value))
  {
    if t < |w.out| && w.out[t].Some? {
      ViewSame(w, t);
      assert Views(w)[t] == ViewAt(w, t);
      var c := w.out[t].value;
      if Holds(w, t, false) && c.raw.ptr in w.cache.db.live {
        var s := w.cache.db.live[c.raw.ptr];
        assert w.out[t := Some(c)] == w.out;
        EditShows(w, t, c, s.(bindings := s.bindings[index := value]));
      }
    }
  }

  /** Opening, stepping and closing rows change `rows` and `running` of one view. */
  lemma RowsShow(w: World, t: nat, rows: bool, running: bool)
    requires Inv(w) && t < |w.out| && w.out[t].Some?
    requires Inv(WithDb(w.(out := w.out[t := Some(w.out[t].value.(rows := rows))]),
                        SetRunning(w.cache.db, w.out[t].value.raw.ptr, running)))
    ensures var w' := WithDb(w.(out := w.out[t := Some(w.out[t].value.(rows := rows))]),
                             SetRunning(w.cache.db, w.out[t].value.raw.ptr, running));
            var v := ViewAt(w, t).value;
            Views(w') == Views(w)[t := Some(v.(rows := rows, running := running && !v.empty))]
  {
    ViewSame(w, t);
    var h := w.out[t].value.raw.ptr;
    var s := if h in w.cache.db.live then w.cache.db.live[h].(running := running) else FreshStmt("");
    EditShows(w, t, w.out[t].value.(rows := rows), s);
  }

  lemma OpenRowsShows(compile: string -> Compiled, w: World, t: nat)
    requires Inv(w) && Inv(Step(w, OpenRows(t)))
    ensures Views(Step(w, OpenRows(t))) == PlainStep(compile, Views(w), OpenRows(t))
  {
    if t < |w.out| && w.out[t].Some? {
      ViewSame(w, t);
      assert Views(w)[t] == ViewAt(w, t);
      if Holds(w, t, false) {
        assert GoodCheckout(w.out[t].value, w.cache.db);
        var h := w.out[t].value.raw.ptr;
        assert SetRunning(w.cache.db, h, false) == w.cache.db by {
          if h in w.cache.db.live {
            assert w.cache.db.live[h := w.cache.db.live[h]] == w.cache.db.live;
          }
        }
        RowsShow(w, t, true, false);
      }
    }
  }

  lemma StepRowsShows(compile: string -> Compiled, w: World, t: nat, more: bool)
    requires Inv(w) && Inv(Step(w, StepRows(t, more)))
    ensures Views(Step(w, StepRows(t, more))) == PlainStep(compile, Views(w), StepRows(t, more))
  {
    if t < |w.out| && w.out[t].Some? {
      ViewSame(w, t);
      assert Views(w)[t] == ViewAt(w, t);
      if Holds(w, t, true) {
        assert w.out[t := Some(w.out[t].value.(rows := true))] == w.out;
        RowsShow(w, t, true, more);
      }
    }
  }

  lemma CloseRowsShows(compile: string -> Compiled, w: World, t: nat)
    requires Inv(w) && Inv(Step(w, CloseRows(t)))
    ensures Views(Step(w, CloseRows(t))) == PlainStep(compile, Views(w), CloseRows(t))
  {
    if t < |w.out| && w.out[t].Some? {
      ViewSame(w, t);
      assert Views(w)[t] == ViewAt(w, t);
      if Holds(w, t, true) {
        RowsShow(w, t, false, false);
      }
    }
  }

  lemma StepShows(compile: string -> Compiled, w: World, op: Op)
    requires Inv(w) && Compiles(compile, w)
    requires op.Get? ==> op.outcome == compile(Trim(op.sql))
    ensures Inv(Step(w, op)) && Views(Step(w, op)) == PlainStep(compile, Views(w), op)
  {
    StepKeepsInv(w, op);
    if op.Get? {
      GetShows(compile, w, op);
    } else if op.Bind? {
      BindShows(compile, w, op.t, op.index, op.value);
    } else if op.OpenRows? {
      OpenRowsShows(compile, w, op.t);
    } else if op.StepRows? {
      StepRowsShows(compile, w, op.t, op.more);
    } else if op.CloseRows? {
      CloseRowsShows(compile, w, op.t);
    } else if op.Return? || op.Discard? {
      TakenShows(compile, w, op);
    } else if op.Flush? {
      DropsUnseen(w, Flushed(w.cache), Raws(w.cache.entries));
    } else {
      DropsUnseen(w, Resized(w.cache, op.capacity), LruResize(w.cache.entries, op.capacity).1);
    }
  }

  // ---------- Main results ----------

  /** Whatever its capacity and however its clients interleave, the cached connection shows what the
      connection without a cache shows: every statement handed out, hit or miss, was compiled from
      the trimmed request, is ready and has no bindings. */
  lemma {:induction false} CacheIsTransparent(compile: string -> Compiled, capacity: nat, ops: seq<Op>)
    requires Consistent(compile, ops)
    ensures var w := Run(Init(capacity), ops);
            Inv(w) && Compiles(compile, w) && Views(w) == PlainRun(compile, ops)
    decreases |ops|
  {
    HandlesAreConserved(capacity, ops);
    if ops != [] {
      var before, op := ops[..|ops| - 1], ops[|ops| - 1];
      CacheIsTransparent(compile, capacity, before);
      CompilesKept(compile, Run(Init(capacity), before), op);
      StepShows(compile, Run(Init(capacity), before), op);
    }
  }

  function WithoutKey(keys: seq<string>, key: string): seq<string> {
    if keys == [] then []
    else (if keys[0] == key then [] else [keys[0]]) + WithoutKey(keys[1..], key)
  }

  function Most(keys: seq<string>, n: nat): seq<string> {
    if |keys| <= n then keys else keys[..n]
  }

  lemma {:induction false} KeysWithout(es: seq<Entry>, key: string)
    ensures Keys(Without(es, key)) == WithoutKey(Keys(es), key)
  {
    if es == [] {
      assert Keys(es) == [];
    } else {
      KeysWithout(es[1..], key);
      assert Keys(es) == [es[0].key] + Keys(es[1..]);
      assert Keys(es)[1..] == Keys(es[1..]);
      if es[0].key != key {
        assert Keys(Without(es, key)) == [es[0].key] + Keys(Without(es[1..], key));
      }
    }
  }

  lemma {:induction false} WithoutPrefix(p: seq<string>, q: seq<string>, key: string)
    requires p <= q
    ensures WithoutKey(p, key) <= WithoutKey(q, key)
  {
    if p != [] {
      WithoutPrefix(p[1..], q[1..], key);
    }
  }

  lemma KeysAfterInsert(es: seq<Entry>, capacity: nat, key: string, raw: Raw)
    requires |es| <= capacity
    ensures Keys(LruInsert(es, capacity, key, raw).0) == Most([key] + WithoutKey(Keys(es), key), capacity)
  {
    KeysWithout(es, key);
    WithoutMembers(es, key);
    var all := [Entry(key, raw)] + Without(es, key);
    assert Keys(all) == [key] + Keys(Without(es, key));
    if |all| > capacity {
      assert Keys(all[..capacity]) == Keys(all)[..capacity];
    }
  }

  /** The keys after a step, as a function of the keys before it and of what clients can see. */
  function KeysAfter(keys: seq<string>, capacity: nat, views: seq<Option<View>>, op: Op): seq<string> {
    match op
    case Get(sql, _) => WithoutKey(keys, Trim(sql))
    case Return(t) =>
      if Has(views, t, false) && !views[t].value.empty then
        Most([views[t].value.sql] + WithoutKey(keys, views[t].value.sql), capacity)
      else keys
    case Flush => []
    case Resize(n) => Most(keys, n)
    case _ => keys
  }

  lemma KeysFollow(w: World, op: Op)
    requires Inv(w)
    ensures Keys(Step(w, op).cache.entries) == KeysAfter(Keys(w.cache.entries), w.cache.capacity, Views(w), op)
  {
    var es := w.cache.entries;
    match op {
      case Get(sql, _) =>
        KeysWithout(es, Trim(sql));
        FindFacts(es, Trim(sql));
      case Return(t) =>
        if t < |w.out| && w.out[t].Some? {
          ViewSame(w, t);
          assert Views(w)[t] == ViewAt(w, t);
          assert GoodCheckout(w.out[t].value, w.cache.db);
          if Holds(w, t, false) && w.out[t].value.raw.ptr != 0 {
            var raw := w.out[t].value.raw;
            KeysAfterInsert(es, w.cache.capacity, raw.key.value, raw);
          }
        }
      case Resize(n) =>
        if |es| > n {
          assert Keys(es[..n]) == Keys(es)[..n];
        }
      case _ =>
    }
  }

  lemma PrefixKept(p: seq<string>, q: seq<string>, c: nat, d: nat, views: seq<Option<View>>, op: Op)
    requires p <= q && c <= d
    ensures KeysAfter(p, c, views, op) <= KeysAfter(q, d, views, op)
  {
    match op {
      case Get(sql, _) => WithoutPrefix(p, q, Trim(sql));
      case Return(t) =>
        if Has(views, t, false) && !views[t].value.empty {
          WithoutPrefix(p, q, views[t].value.sql);
        }
      case _ =>
    }
  }

  /** LRU inclusion: on the same run, interleaved in any way, the keys cached at one capacity are the
      most recent ones of those cached at any larger capacity. */
  lemma {:induction false} SmallerIsPrefix(compile: string -> Compiled, c: nat, d: nat, ops: seq<Op>)
    requires c <= d && Consistent(compile, ops)
    ensures var small, large := Run(Init(c), ops).cache, Run(Init(d), ops).cache;
            Keys(small.entries) <= Keys(large.entries) && small.capacity <= large.capacity
    decreases |ops|
  {
    if ops != [] {
      var before, op := ops[..|ops| - 1], ops[|ops| - 1];
      SmallerIsPrefix(compile, c, d, before);
      CacheIsTransparent(compile, c, before);
      CacheIsTransparent(compile, d, before);
      PrefixStep(Run(Init(c), before), Run(Init(d), before), op);
    }
  }

  lemma PrefixStep(small: World, large: World, op: Op)
    requires Inv(small) && Inv(large) && Views(small) == Views(large)
    requires Keys(small.cache.entries) <= Keys(large.cache.entries) && small.cache.capacity <= large.cache.capacity
    ensures Keys(Step(small, op).cache.entries) <= Keys(Step(large, op).cache.entries)
    ensures Step(small, op).cache.capacity <= Step(large, op).cache.capacity
  {
    KeysFollow(small, op);
    KeysFollow(large, op);
    PrefixKept(Keys(small.cache.entries), Keys(large.cache.entries), small.cache.capacity, large.cache.capacity,
               Views(small), op);
  }

  /** So whatever is a hit stays a hit when the capacity grows. */
  lemma HitStaysHit(compile: string -> Compiled, c: nat, d: nat, ops: seq<Op>, sql: string)
    requires c <= d && Consistent(compile, ops)
    requires Find(Run(Init(c), ops).cache.entries, Trim(sql)).Some?
    ensures Find(Run(Init(d), ops).cache.entries, Trim(sql)).Some?
  {
    SmallerIsPrefix(compile, c, d, ops);
    var small, large := Run(Init(c), ops).cache.entries, Run(Init(d), ops).cache.entries;
    FindFacts(small, Trim(sql));
    FindFacts(large, Trim(sql));
    var i :| 0 <= i < |small| && small[i].key == Trim(sql);
    assert Keys(small)[i] == Keys(large)[i] == large[i].key;
    assert large[i] in large;
  }

  // ---------- What is cached ----------

  /** The last capacity asked for. */
  function CapacityAfter(capacity: nat, ops: seq<Op>): nat
    decreases |ops|
  {
    if ops == [] then capacity
    else if ops[|ops| - 1].Resize? then ops[|ops| - 1].capacity
    else CapacityAfter(capacity, ops[..|ops| - 1])
  }

  /** The keys a cache of that capacity must hold, most recent first, from what the clients did alone. */
  function KeysOfRun(compile: string -> Compiled, capacity: nat, ops: seq<Op>): seq<string>
    decreases |ops|
  {
    if ops == [] then []
    else
      var before := ops[..|ops| - 1];
      KeysAfter(KeysOfRun(compile, capacity, before), CapacityAfter(capacity, before), PlainRun(compile, before),
                ops[|ops| - 1])
  }

  /** `set_capacity` takes effect and lasts: the capacity is the last one asked for. */
  lemma {:induction false} CapacityIsLast(capacity: nat, ops: seq<Op>)
    ensures Run(Init(capacity), ops).cache.capacity == CapacityAfter(capacity, ops)
    decreases |ops|
  {
    if ops != [] {
      CapacityIsLast(capacity, ops[..|ops| - 1]);
    }
  }

  /** So what is cached, and in which order, is exactly what the run calls for. */
  lemma {:induction false} RunKeys(compile: string -> Compiled, capacity: nat, ops: seq<Op>)
    requires Consistent(compile, ops)
    ensures Keys(Run(Init(capacity), ops).cache.entries) == KeysOfRun(compile, capacity, ops)
    decreases |ops|
  {
    if ops == [] {
      assert Keys([]) == [];
    } else {
      var before, op := ops[..|ops| - 1], ops[|ops| - 1];
      RunKeys(compile, capacity, before);
      CapacityIsLast(capacity, before);
      CacheIsTransparent(compile, capacity, before);
      KeysFollow(Run(Init(capacity), before), op);
    }
  }

  /** A hit hands out the cached handle itself and asks nothing of SQLite. */
  lemma HitReuses(w: World, sql: string, outcome: Compiled, e: Entry)
    requires Inv(w) && e in w.cache.entries && e.key == Trim(sql)
    ensures var after := Step(w, Get(sql, outcome));
            && after.cache.db == w.cache.db
            && after.out == w.out + [Some(Checkout(Raw(e.raw.ptr, Some(Trim(sql))), false))]
  {
    var es, key := w.cache.entries, Trim(sql);
    FindFacts(es, key);
    var found := Entry(key, Find(es, key).value);
    var i :| 0 <= i < |es| && es[i] == e;
    var j :| 0 <= j < |es| && es[j] == found;
    assert i == j;
  }

  /** And a statement that comes back is the one the next request for its text gets, as long as there is
      any capacity; with none it is finalized. */
  lemma ReturnThenGet(w: World, t: nat, sql: string, outcome: Compiled)
    requires Inv(w) && Holds(w, t, false) && w.out[t].value.raw.ptr != 0
    requires w.out[t].value.raw.key == Some(Trim(sql))
    ensures var h, back := w.out[t].value.raw.ptr, Step(w, Return(t));
            if w.cache.capacity > 0 then
              && back.cache.db.live.Keys >= {h}
              && Step(back, Get(sql, outcome)).out == back.out + [Some(Checkout(w.out[t].value.raw, false))]
              && Step(back, Get(sql, outcome)).cache.db == back.cache.db
            else
              h !in back.cache.db.live && back.cache.entries == []
  {
    var raw, key := w.out[t].value.raw, Trim(sql);
    var es := w.cache.entries;
    var back := Step(w, Return(t));
    StepKeepsInv(w, Return(t));
    var kept := LruInsert(es, w.cache.capacity, key, raw).0;
    assert back.cache.entries == kept;
    if w.cache.capacity > 0 {
      assert kept[0] == Entry(key, raw);
      assert GoodEntry(kept[0], back.cache.db);
      HitReuses(back, sql, outcome, kept[0]);
    } else {
      assert es == [];
      ReturnedUnkept(w, t);
    }
  }

  lemma ReturnedUnkept(w: World, t: nat)
    requires Inv(w) && Holds(w, t, false) && w.out[t].value.raw.ptr != 0 && w.cache.capacity == 0
    ensures w.out[t].value.raw.ptr !in Step(w, Return(t)).cache.db.live
    ensures Step(w, Return(t)).cache.entries == []
  {
    var raw := w.out[t].value.raw;
    assert GoodCheckout(w.out[t].value, w.cache.db) && w.cache.entries == [];
    var dropped := LruInsert([], 0, raw.key.value, raw).1;
    assert dropped == [raw] + [] == [raw];
    DropOne(ClearBindings(w.cache.db, raw.ptr), raw);
  }

  // ---------- Trimming ----------

  /** The characters with the Unicode property White_Space, by code point. */
  lemma BlanksAreWhiteSpace(c: char)
    ensures IsWhitespace(c) <==>
            var n := c as int;
            9 <= n <= 13 || n in {32, 133, 160, 5760, 8232, 8233, 8239, 8287, 12288} || 8192 <= n <= 8202
  {
  }

  lemma {:induction false} TrimStartSplits(s: string) returns (lead: string)
    ensures s == lead + TrimStart(s) && forall i :: 0 <= i < |lead| ==> IsWhitespace(lead[i])
    ensures TrimStart(s) != [] ==> !IsWhitespace(TrimStart(s)[0])
  {
    if s != [] && IsWhitespace(s[0]) {
      lead := TrimStartSplits(s[1..]);
      lead := [s[0]] + lead;
    } else {
      lead := [];
    }
  }

  lemma Regroup(a: string, b: string, c: string)
    ensures (a + b) + c == a + (b + c)
  {
  }

  lemma {:induction false} TrimEndSplits(s: string) returns (trail: string)
    ensures s == TrimEnd(s) + trail && forall i :: 0 <= i < |trail| ==> IsWhitespace(trail[i])
    ensures TrimEnd(s) != [] ==> !IsWhitespace(TrimEnd(s)[|TrimEnd(s)| - 1])
  {
    if s != [] && IsWhitespace(s[|s| - 1]) {
      var shorter, last := s[..|s| - 1], [s[|s| - 1]];
      var blanks := TrimEndSplits(shorter);
      trail := blanks + last;
      Regroup(TrimEnd(shorter), blanks, last);
      assert s == shorter + last;
    } else {
      trail := [];
    }
  }

  /** Trimming takes blanks off both ends and nothing else, and leaves none there; so a trimmed text is
      its own trimming, and all paddings of a text share its cache key. */
  lemma TrimIsExact(s: string) returns (lead: string, trail: string)
    ensures s == lead + Trim(s) + trail
    ensures forall i :: 0 <= i < |lead| ==> IsWhitespace(lead[i])
    ensures forall i :: 0 <= i < |trail| ==> IsWhitespace(trail[i])
    ensures Trim(s) != [] ==> !IsWhitespace(Trim(s)[0]) && !IsWhitespace(Trim(s)[|Trim(s)| - 1])
    ensures Trim(Trim(s)) == Trim(s)
  {
    lead := TrimStartSplits(s);
    trail := TrimEndSplits(TrimStart(s));
    if Trim(s) != [] {
      assert Trim(s)[0] == TrimStart(s)[0];
    }
  }
}

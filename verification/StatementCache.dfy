/**
 The prepared-statement cache (src/cache.rs) with the handle life cycle of src/raw_statement.rs.

 SQLite is a table of open statements plus a record of every finalized handle. `LruCache` is the
 library's recency list, most recent entry first. The classes are proved against functions on these
 values; a `World` joins the cache with everything its clients have checked out, so that what holds
 over whole runs of interleaved clients can be stated.
 */
module StatementCache {
  import opened Wrappers

  // ---------- Text ----------

  /** The characters `str::trim` removes: Unicode White_Space. */
  predicate IsWhitespace(c: char) {
    '\U{09}' <= c <= '\U{0D}' || c == ' ' || c == '\U{85}' || c == '\U{A0}' || c == '\U{1680}'
    || '\U{2000}' <= c <= '\U{200A}' || c == '\U{2028}' || c == '\U{2029}' || c == '\U{202F}'
    || c == '\U{205F}' || c == '\U{3000}'
  }

  function TrimStart(s: string): string {
    if s != [] && IsWhitespace(s[0]) then TrimStart(s[1..]) else s
  }

  function TrimEnd(s: string): string {
    if s != [] && IsWhitespace(s[|s| - 1]) then TrimEnd(s[..|s| - 1]) else s
  }

  function Trim(s: string): string {
    TrimEnd(TrimStart(s))
  }

  // ---------- SQLite's statements ----------

  /** The null pointer is 0. */
  type Handle = nat

  datatype Stmt = Stmt(sql: string, running: bool, bindings: map<nat, int>)

  datatype Sqlite = Sqlite(live: map<Handle, Stmt>, finalized: multiset<Handle>, next: Handle)

  /** How a text compiles: refused, no statement in it, or a statement. Refusing a text with several
      statements, or with an error after one, means that `tried` statements were opened and finalized again. */
  datatype Compiled = Refused(tried: nat) | Empty | Prepared

  function FreshStmt(sql: string): Stmt {
    Stmt(sql, false, map[])
  }

  function OpenAndFinalize(db: Sqlite, n: nat): Sqlite
    decreases n
  {
    if n == 0 then db
    else OpenAndFinalize(db.(finalized := db.finalized + multiset{db.next}, next := db.next + 1), n - 1)
  }

  /** `None` is an error; the null handle is a text without a statement. */
  function Prepare(db: Sqlite, sql: string, outcome: Compiled): (Sqlite, Option<Handle>) {
    match outcome
    case Refused(tried) => (OpenAndFinalize(db, tried), None)
    case Empty => (db, Some(0))
    case Prepared => (db.(live := db.live[db.next := FreshStmt(sql)], next := db.next + 1), Some(db.next))
  }

  /** Finalizing the null handle does nothing. */
  function Finalize(db: Sqlite, h: Handle): Sqlite {
    if h == 0 then db else db.(live := db.live - {h}, finalized := db.finalized + multiset{h})
  }

  function WithStmt(db: Sqlite, h: Handle, s: Stmt): Sqlite {
    if h in db.live then db.(live := db.live[h := s]) else db
  }

  function ClearBindings(db: Sqlite, h: Handle): Sqlite {
    if h in db.live then WithStmt(db, h, db.live[h].(bindings := map[])) else db
  }

  function SetRunning(db: Sqlite, h: Handle, running: bool): Sqlite {
    if h in db.live then WithStmt(db, h, db.live[h].(running := running)) else db
  }

  // ---------- The recency list ----------

  datatype Raw = Raw(ptr: Handle, key: Option<string>)

  datatype Entry = Entry(key: string, raw: Raw)

  function Without(es: seq<Entry>, key: string): seq<Entry> {
    if es == [] then []
    else (if es[0].key == key then [] else [es[0]]) + Without(es[1..], key)
  }

  function Find(es: seq<Entry>, key: string): Option<Raw> {
    if es == [] then None
    else if es[0].key == key then Some(es[0].raw)
    else Find(es[1..], key)
  }

  /** Insertion replaces an entry of the same key, makes it the most recent one and then drops the
      least recent entry if there are too many. The second result is what was dropped. */
  function LruInsert(es: seq<Entry>, capacity: nat, key: string, raw: Raw): (seq<Entry>, seq<Raw>) {
    var replaced := match Find(es, key) case None => [] case Some(previous) => [previous];
    var all := [Entry(key, raw)] + Without(es, key);
    if |all| > capacity then (all[..|all| - 1], [all[|all| - 1].raw] + replaced) else (all, replaced)
  }

  function LruResize(es: seq<Entry>, capacity: nat): (seq<Entry>, seq<Raw>) {
    if |es| > capacity then (es[..capacity], Raws(es[capacity..])) else (es, [])
  }

  function Raws(es: seq<Entry>): seq<Raw> {
    seq(|es|, i requires 0 <= i < |es| => es[i].raw)
  }

  function Ptrs(es: seq<Entry>): seq<Handle> {
    seq(|es|, i requires 0 <= i < |es| => es[i].raw.ptr)
  }

  function Keys(es: seq<Entry>): seq<string> {
    seq(|es|, i requires 0 <= i < |es| => es[i].key)
  }

  /** Dropping a raw statement finalizes it. */
  function DropAll(db: Sqlite, raws: seq<Raw>): Sqlite
    decreases |raws|
  {
    if raws == [] then db else DropAll(Finalize(db, raws[0].ptr), raws[1..])
  }

  // ---------- What the cache does ----------

  datatype CacheState = CacheState(entries: seq<Entry>, capacity: nat, db: Sqlite)

  /** Looking a statement up takes it out; on a miss it is prepared from the trimmed text. */
  function Lookup(c: CacheState, sql: string, outcome: Compiled): (CacheState, Option<Raw>) {
    var key := Trim(sql);
    match Find(c.entries, key)
    case Some(raw) => (c.(entries := Without(c.entries, key)), Some(Raw(raw.ptr, Some(key))))
    case None =>
      var (db, h) := Prepare(c.db, key, outcome);
      (c.(db := db), if h.None? then None else Some(Raw(h.value, Some(key))))
  }

  /** A statement comes back: without bindings, as the most recent entry. */
  function TakeBack(c: CacheState, raw: Raw): CacheState {
    if raw.ptr == 0 then c
    else
      var db := ClearBindings(c.db, raw.ptr);
      if raw.key.None? then c.(db := Finalize(db, raw.ptr))
      else
        var (es, dropped) := LruInsert(c.entries, c.capacity, raw.key.value, raw);
        CacheState(es, c.capacity, DropAll(db, dropped))
  }

  function Flushed(c: CacheState): CacheState {
    CacheState([], c.capacity, DropAll(c.db, Raws(c.entries)))
  }

  function Resized(c: CacheState, capacity: nat): CacheState {
    var (es, dropped) := LruResize(c.entries, capacity);
    CacheState(es, capacity, DropAll(c.db, dropped))
  }

  // ---------- The classes ----------

  class Connection {
    var db: Sqlite

    constructor ()
      ensures db == Sqlite(map[], multiset{}, 1)
    {
      db := Sqlite(map[], multiset{}, 1);
    }

    method DropRaws(raws: seq<Raw>)
      modifies this
      ensures db == DropAll(old(db), raws)
    {
      var i := 0;
      while i < |raws|
        invariant 0 <= i <= |raws|
        invariant DropAll(db, raws[i..]) == DropAll(old(db), raws)
      {
        db := Finalize(db, raws[i].ptr);
        assert raws[i..][1..] == raws[i + 1..];
        i := i + 1;
      }
    }
  }

  class StatementCache {
    const conn: Connection
    var entries: seq<Entry>
    var capacity: nat

    constructor WithCapacity(conn: Connection, capacity: nat)
      ensures this.conn == conn && entries == [] && this.capacity == capacity
    {
      this.conn := conn;
      this.entries := [];
      this.capacity := capacity;
    }

    function State(): CacheState
      reads this, conn
    {
      CacheState(entries, capacity, conn.db)
    }

    method SetCapacity(n: nat)
      modifies this, conn
      ensures State() == Resized(old(State()), n)
      ensures capacity == n && entries == if |old(entries)| > n then old(entries)[..n] else old(entries)
    {
      var (es, dropped) := LruResize(entries, n);
      entries, capacity := es, n;
      conn.DropRaws(dropped);
    }

    method Get(sql: string, outcome: Compiled) returns (r: Option<CachedStatement>)
      modifies this, conn
      ensures State() == Lookup(old(State()), sql, outcome).0
      ensures var found := Lookup(old(State()), sql, outcome).1;
              && (r.Some? <==> found.Some?)
              && (r.Some? ==> fresh(r.value) && r.value.cache == this && r.value.stmt == found)
    {
      var trimmed := Trim(sql);
      var raw: Raw;
      match Find(entries, trimmed) {
        case Some(hit) =>
          entries := Without(entries, trimmed);
          raw := hit;
        case None =>
          var (db, h) := Prepare(conn.db, trimmed, outcome);
          conn.db := db;
          if h.None? {
            return None;
          }
          raw := Raw(h.value, None);
      }
      raw := raw.(key := Some(trimmed));
      var stmt := new CachedStatement(this, raw);
      return Some(stmt);
    }

    method CacheStmt(raw: Raw)
      modifies this, conn
      ensures State() == TakeBack(old(State()), raw)
    {
      if raw.ptr == 0 {
        return;
      }
      conn.db := ClearBindings(conn.db, raw.ptr);
      match raw.key {
        case Some(key) =>
          var (es, dropped) := LruInsert(entries, capacity, key, raw);
          entries := es;
          conn.DropRaws(dropped);
        case None =>
          conn.db := Finalize(conn.db, raw.ptr);
      }
    }

    method Flush()
      modifies this, conn
      ensures State() == Flushed(old(State()))
    {
      var dropped := Raws(entries);
      entries := [];
      conn.DropRaws(dropped);
    }
  }

  class CachedStatement {
    const cache: StatementCache
    var stmt: Option<Raw>

    constructor (cache: StatementCache, raw: Raw)
      ensures this.cache == cache && stmt == Some(raw)
    {
      this.cache := cache;
      stmt := Some(raw);
    }

    method Drop()
      modifies this, cache, cache.conn
      ensures stmt == None
      ensures cache.State() == if old(stmt).None? then old(cache.State())
                               else TakeBack(old(cache.State()), old(stmt).value)
    {
      match stmt {
        case Some(raw) =>
          stmt := None;
          cache.CacheStmt(raw);
        case None =>
      }
    }

    /** The statement is finalized now, so the drop that follows has nothing left to return. */
    method Discard()
      modifies this, cache, cache.conn
      ensures stmt == None
      ensures cache.State() ==
              old(cache.State()).(db := if old(stmt).None? then old(cache.conn.db)
                                        else Finalize(old(cache.conn.db), old(stmt).value.ptr))
    {
      if stmt.Some? {
        cache.conn.db := Finalize(cache.conn.db, stmt.value.ptr);
      }
      stmt := None;
      Drop();
    }
  }

  // ---------- Clients ----------

  /** A statement in a client's hands. `rows` says that a `Rows` over it is alive; the borrow checker
      then keeps the client from dropping, discarding or rebinding the statement. */
  datatype Checkout = Checkout(raw: Raw, rows: bool)

  /** `out[t]` is the `t`-th request's statement, as long as its client has it. */
  datatype World = World(cache: CacheState, out: seq<Option<Checkout>>)

  datatype Op =
    | Get(sql: string, outcome: Compiled)
    | Bind(t: nat, index: nat, value: int)
    | OpenRows(t: nat)
    | StepRows(t: nat, more: bool)
    | CloseRows(t: nat)
    | Return(t: nat)
    | Discard(t: nat)
    | Flush
    | Resize(capacity: nat)

  predicate Holds(w: World, t: nat, rows: bool) {
    t < |w.out| && w.out[t].Some? && w.out[t].value.rows == rows
  }

  function WithDb(w: World, db: Sqlite): World {
    w.(cache := w.cache.(db := db))
  }

  /** One step of some client. A step the borrow checker rules out changes nothing. */
  function Step(w: World, op: Op): World {
    match op
    case Get(sql, outcome) =>
      var (cache, raw) := Lookup(w.cache, sql, outcome);
      World(cache, w.out + [if raw.None? then None else Some(Checkout(raw.value, false))])
    case Bind(t, index, value) =>
      if !Holds(w, t, false) then w
      else
        var h := w.out[t].value.raw.ptr;
        if h !in w.cache.db.live then w
        else
          var s := w.cache.db.live[h];
          WithDb(w, WithStmt(w.cache.db, h, s.(bindings := s.bindings[index := value])))
    case OpenRows(t) =>
      if Holds(w, t, false) then w.(out := w.out[t := Some(w.out[t].value.(rows := true))]) else w
    case StepRows(t, more) =>
      if Holds(w, t, true) then WithDb(w, SetRunning(w.cache.db, w.out[t].value.raw.ptr, more)) else w
    case CloseRows(t) =>
      if Holds(w, t, true) then
        WithDb(w.(out := w.out[t := Some(w.out[t].value.(rows := false))]),
               SetRunning(w.cache.db, w.out[t].value.raw.ptr, false))
      else w
    case Return(t) =>
      if Holds(w, t, false) then World(TakeBack(w.cache, w.out[t].value.raw), w.out[t := None]) else w
    case Discard(t) =>
      if Holds(w, t, false) then
        WithDb(w.(out := w.out[t := None]), Finalize(w.cache.db, w.out[t].value.raw.ptr))
      else w
    case Flush => w.(cache := Flushed(w.cache))
    case Resize(capacity) => w.(cache := Resized(w.cache, capacity))
  }

  function Run(w: World, ops: seq<Op>): World
    decreases |ops|
  {
    if ops == [] then w else Step(Run(w, ops[..|ops| - 1]), ops[|ops| - 1])
  }

  function Init(capacity: nat): World {
    World(CacheState([], capacity, Sqlite(map[], multiset{}, 1)), [])
  }

  // ---------- Invariants ----------

  function OutPtr(c: Option<Checkout>): Handle {
    if c.None? then 0 else c.value.raw.ptr
  }

  function OutPtrs(out: seq<Option<Checkout>>): seq<Handle> {
    seq(|out|, i requires 0 <= i < |out| => OutPtr(out[i]))
  }

  /** Every handle ever prepared is in exactly one of three places and in it exactly once. */
  ghost predicate Conserved(cached: seq<Handle>, out: seq<Handle>, db: Sqlite) {
    && db.next > 0
    && (forall h: Handle :: 0 < h ==>
          multiset(cached)[h] + multiset(out)[h] + db.finalized[h] == if h < db.next then 1 else 0)
    && (forall h: Handle :: h in db.live <==> 0 < h < db.next && db.finalized[h] == 0)
  }

  predicate DistinctKeys(es: seq<Entry>) {
    forall i, j :: 0 <= i < j < |es| ==> es[i].key != es[j].key
  }

  /** A cached statement is filed under its own key, compiled from it, ready and unbound. */
  ghost predicate GoodEntry(e: Entry, db: Sqlite) {
    e.raw.key == Some(e.key) && e.raw.ptr in db.live && db.live[e.raw.ptr] == FreshStmt(e.key)
  }

  ghost predicate GoodEntries(es: seq<Entry>, db: Sqlite) {
    forall e :: e in es ==> GoodEntry(e, db)
  }

  /** A checked-out statement runs only while its rows are alive. */
  ghost predicate GoodCheckout(c: Checkout, db: Sqlite) {
    && c.raw.key.Some?
    && (c.raw.ptr != 0 ==>
          && c.raw.ptr in db.live
          && db.live[c.raw.ptr].sql == c.raw.key.value
          && (!c.rows ==> !db.live[c.raw.ptr].running))
  }

  ghost predicate Inv(w: World) {
    && Conserved(Ptrs(w.cache.entries), OutPtrs(w.out), w.cache.db)
    && |w.cache.entries| <= w.cache.capacity
    && DistinctKeys(w.cache.entries)
    && GoodEntries(w.cache.entries, w.cache.db)
    && (forall t :: 0 <= t < |w.out| && w.out[t].Some? ==> GoodCheckout(w.out[t].value, w.cache.db))
  }

  // ---------- The recency list keeps every handle ----------

  lemma {:induction false} WithoutMembers(es: seq<Entry>, key: string)
    ensures |Without(es, key)| <= |es|
    ensures forall e :: e in Without(es, key) <==> e in es && e.key != key
  {
    if es != [] {
      WithoutMembers(es[1..], key);
      assert es == [es[0]] + es[1..];
    }
  }

  lemma DistinctCons(first: Entry, rest: seq<Entry>)
    ensures DistinctKeys([first] + rest) <==> DistinctKeys(rest) && forall e :: e in rest ==> e.key != first.key
  {
    var all := [first] + rest;
    if DistinctKeys(all) {
      forall i, j | 0 <= i < j < |rest| ensures rest[i].key != rest[j].key {
        assert all[i + 1].key != all[j + 1].key;
      }
      forall e | e in rest ensures e.key != first.key {
        var i :| 0 <= i < |rest| && rest[i] == e;
        assert all[0].key != all[i + 1].key;
      }
    }
  }

  lemma {:induction false} WithoutDistinct(es: seq<Entry>, key: string)
    requires DistinctKeys(es)
    ensures DistinctKeys(Without(es, key))
  {
    if es != [] {
      assert es == [es[0]] + es[1..];
      DistinctCons(es[0], es[1..]);
      WithoutDistinct(es[1..], key);
      WithoutMembers(es[1..], key);
      if es[0].key != key {
        DistinctCons(es[0], Without(es[1..], key));
      }
    }
  }

  lemma {:induction false} FindFacts(es: seq<Entry>, key: string)
    ensures match Find(es, key)
            case None => Without(es, key) == es && forall e :: e in es ==> e.key != key
            case Some(raw) => Entry(key, raw) in es
  {
    if es != [] {
      FindFacts(es[1..], key);
      assert es == [es[0]] + es[1..];
    }
  }

  lemma PtrsCons(first: Entry, rest: seq<Entry>)
    ensures multiset(Ptrs([first] + rest)) == multiset{first.raw.ptr} + multiset(Ptrs(rest))
  {
    assert Ptrs([first] + rest) == [first.raw.ptr] + Ptrs(rest);
  }

  lemma PtrsSnoc(es: seq<Entry>, last: Entry)
    ensures multiset(Ptrs(es + [last])) == multiset(Ptrs(es)) + multiset{last.raw.ptr}
  {
    assert Ptrs(es + [last]) == Ptrs(es) + [last.raw.ptr];
  }

  /** Taking a key out takes out exactly one handle. */
  lemma {:induction false} WithoutPtrs(es: seq<Entry>, key: string)
    requires DistinctKeys(es) && Find(es, key).Some?
    ensures |Without(es, key)| < |es|
    ensures multiset(Ptrs(es)) == multiset(Ptrs(Without(es, key))) + multiset{Find(es, key).value.ptr}
  {
    var first, rest := es[0], es[1..];
    assert es == [first] + rest;
    DistinctCons(first, rest);
    if first.key == key {
      WithoutFirst(first, rest);
    } else {
      WithoutPtrs(rest, key);
      PtrsCons(first, rest);
      PtrsCons(first, Without(rest, key));
    }
  }

  lemma WithoutFirst(first: Entry, rest: seq<Entry>)
    requires forall e :: e in rest ==> e.key != first.key
    ensures Without([first] + rest, first.key) == rest
    ensures multiset(Ptrs([first] + rest)) == multiset(Ptrs(rest)) + multiset{first.raw.ptr}
  {
    assert ([first] + rest)[1..] == rest;
    AbsentStays(rest, first.key);
    PtrsCons(first, rest);
  }

  lemma {:induction false} AbsentStays(es: seq<Entry>, key: string)
    requires forall e :: e in es ==> e.key != key
    ensures Without(es, key) == es && Find(es, key) == None
  {
    if es != [] {
      AbsentStays(es[1..], key);
      assert es == [es[0]] + es[1..];
    }
  }

  lemma InsertMembers(es: seq<Entry>, capacity: nat, key: string, raw: Raw)
    requires DistinctKeys(es) && |es| <= capacity
    ensures var kept := LruInsert(es, capacity, key, raw).0;
            && |kept| <= capacity && DistinctKeys(kept)
            && (forall e :: e in kept ==> e in es || e == Entry(key, raw))
  {
    WithoutMembers(es, key);
    WithoutDistinct(es, key);
    DistinctCons(Entry(key, raw), Without(es, key));
  }

  /** What insertion keeps and drops is what there was and the new statement. */
  lemma InsertPtrs(es: seq<Entry>, capacity: nat, key: string, raw: Raw)
    requires DistinctKeys(es) && |es| <= capacity
    ensures var (kept, dropped) := LruInsert(es, capacity, key, raw);
            multiset(Ptrs(kept)) + multiset(RawPtrs(dropped)) == multiset(Ptrs(es)) + multiset{raw.ptr}
  {
    if Find(es, key).None? {
      InsertNewPtrs(es, capacity, key, raw);
    } else {
      InsertOverPtrs(es, capacity, key, raw);
    }
  }

  lemma InsertNewPtrs(es: seq<Entry>, capacity: nat, key: string, raw: Raw)
    requires |es| <= capacity && Find(es, key).None?
    ensures var (kept, dropped) := LruInsert(es, capacity, key, raw);
            multiset(Ptrs(kept)) + multiset(RawPtrs(dropped)) == multiset(Ptrs(es)) + multiset{raw.ptr}
  {
    FindFacts(es, key);
    PtrsCons(Entry(key, raw), es);
    var all := [Entry(key, raw)] + es;
    if |all| > capacity {
      LastPtr(all);
    } else {
      assert RawPtrs([]) == [];
    }
  }

  lemma LastPtr(es: seq<Entry>)
    requires es != []
    ensures multiset(Ptrs(es[..|es| - 1])) + multiset(RawPtrs([es[|es| - 1].raw] + [])) == multiset(Ptrs(es))
  {
    var last := es[|es| - 1];
    assert es == es[..|es| - 1] + [last];
    PtrsSnoc(es[..|es| - 1], last);
    assert RawPtrs([last.raw] + []) == [last.raw.ptr];
  }

  lemma InsertOverPtrs(es: seq<Entry>, capacity: nat, key: string, raw: Raw)
    requires DistinctKeys(es) && |es| <= capacity && Find(es, key).Some?
    ensures var (kept, dropped) := LruInsert(es, capacity, key, raw);
            multiset(Ptrs(kept)) + multiset(RawPtrs(dropped)) == multiset(Ptrs(es)) + multiset{raw.ptr}
  {
    PtrsCons(Entry(key, raw), Without(es, key));
    WithoutPtrs(es, key);
    assert RawPtrs([Find(es, key).value]) == [Find(es, key).value.ptr];
  }

  function RawPtrs(raws: seq<Raw>): seq<Handle> {
    seq(|raws|, i requires 0 <= i < |raws| => raws[i].ptr)
  }

  lemma {:induction false} DropAllFacts(db: Sqlite, raws: seq<Raw>)
    ensures var after := DropAll(db, raws);
            && after.next == db.next
            && (forall h: Handle :: 0 < h ==> after.finalized[h] == db.finalized[h] + multiset(RawPtrs(raws))[h])
            && (forall h: Handle :: 0 < h ==> (h in after.live <==> h in db.live && h !in RawPtrs(raws)))
            && (forall h: Handle :: h in after.live ==> h in db.live && after.live[h] == db.live[h])
            && (0 in after.live <==> 0 in db.live)
    decreases |raws|
  {
    if raws != [] {
      DropAllFacts(Finalize(db, raws[0].ptr), raws[1..]);
      assert RawPtrs(raws) == [raws[0].ptr] + RawPtrs(raws[1..]);
    }
  }

  /** Dropping statements moves them from where they were to the finalized ones. */
  lemma DropConserves(cached: seq<Handle>, out: seq<Handle>, db: Sqlite,
                      cached': seq<Handle>, out': seq<Handle>, raws: seq<Raw>)
    requires Conserved(cached, out, db)
    requires forall h: Handle :: 0 < h ==>
               multiset(cached')[h] + multiset(out')[h] + multiset(RawPtrs(raws))[h]
               == multiset(cached)[h] + multiset(out)[h]
    ensures Conserved(cached', out', DropAll(db, raws))
  {
    DropAllFacts(db, raws);
  }

  lemma OutMoves(out: seq<Option<Checkout>>, t: nat, c: Option<Checkout>)
    requires t < |out|
    ensures multiset(OutPtrs(out[t := c])) == multiset(OutPtrs(out)) - multiset{OutPtr(out[t])} + multiset{OutPtr(c)}
  {
    assert OutPtrs(out[t := c]) == OutPtrs(out)[t := OutPtr(c)];
  }

  lemma OutGrows(out: seq<Option<Checkout>>, c: Option<Checkout>)
    ensures multiset(OutPtrs(out + [c])) == multiset(OutPtrs(out)) + multiset{OutPtr(c)}
  {
    assert OutPtrs(out + [c]) == OutPtrs(out) + [OutPtr(c)];
  }

  lemma Twice(s: seq<Handle>, i: nat, j: nat)
    requires i < j < |s| && s[i] == s[j]
    ensures multiset(s)[s[i]] >= 2
  {
    assert s == s[..j] + s[j..];
    assert s[..j][i] == s[i] && s[j..][0] == s[j];
    assert s[i] in s[..j] && s[j] in s[j..];
  }

  /** A checked-out handle is nobody else's. */
  lemma CheckoutIsAlone(w: World, t: nat)
    requires Inv(w) && t < |w.out| && OutPtr(w.out[t]) != 0
    ensures forall e :: e in w.cache.entries ==> e.raw.ptr != OutPtr(w.out[t])
    ensures forall u :: 0 <= u < |w.out| && u != t ==> OutPtr(w.out[u]) != OutPtr(w.out[t])
  {
    var h := OutPtr(w.out[t]);
    var out := OutPtrs(w.out);
    assert out[t] == h;
    assert multiset(out)[h] >= 1 && h < w.cache.db.next by {
      assert h in out;
    }
    forall e | e in w.cache.entries ensures e.raw.ptr != h {
      var i :| 0 <= i < |w.cache.entries| && w.cache.entries[i] == e;
      assert Ptrs(w.cache.entries)[i] == e.raw.ptr;
      assert e.raw.ptr in Ptrs(w.cache.entries);
    }
    forall u | 0 <= u < |w.out| && u != t ensures OutPtr(w.out[u]) != h {
      if OutPtr(w.out[u]) == h {
        assert out[u] == h;
        if u < t { Twice(out, u, t); } else { Twice(out, t, u); }
      }
    }
  }

  /** What is still cached or checked out after some statements were dropped is untouched. */
  lemma SurvivorIsLive(cached: seq<Handle>, out: seq<Handle>, db: Sqlite, raws: seq<Raw>, h: Handle)
    requires Conserved(cached, out, DropAll(db, raws)) && h in db.live && h != 0
    requires h in cached || h in out
    ensures h in DropAll(db, raws).live && DropAll(db, raws).live[h] == db.live[h]
  {
    DropAllFacts(db, raws);
    assert multiset(cached)[h] + multiset(out)[h] >= 1;
  }

  lemma EntryPtr(es: seq<Entry>, e: Entry)
    requires e in es
    ensures e.raw.ptr in Ptrs(es)
  {
    var i :| 0 <= i < |es| && es[i] == e;
    assert Ptrs(es)[i] == e.raw.ptr;
  }

  /** Any change of the cache that only drops statements keeps the invariant. */
  lemma InvAfterDrops(es: seq<Entry>, capacity: nat, out: seq<Option<Checkout>>, db: Sqlite, raws: seq<Raw>,
                      cached: seq<Handle>, held: seq<Handle>)
    requires Conserved(cached, held, db)
    requires forall h: Handle :: 0 < h ==>
               multiset(Ptrs(es))[h] + multiset(OutPtrs(out))[h] + multiset(RawPtrs(raws))[h]
               == multiset(cached)[h] + multiset(held)[h]
    requires |es| <= capacity && DistinctKeys(es) && GoodEntries(es, db)
    requires forall t :: 0 <= t < |out| && out[t].Some? ==> GoodCheckout(out[t].value, db)
    ensures Inv(World(CacheState(es, capacity, DropAll(db, raws)), out))
  {
    var after := DropAll(db, raws);
    DropConserves(cached, held, db, Ptrs(es), OutPtrs(out), raws);
    forall e | e in es ensures GoodEntry(e, after) {
      EntryPtr(es, e);
      SurvivorIsLive(Ptrs(es), OutPtrs(out), db, raws, e.raw.ptr);
    }
    forall t | 0 <= t < |out| && out[t].Some? ensures GoodCheckout(out[t].value, after) {
      var h := out[t].value.raw.ptr;
      if h != 0 {
        assert OutPtrs(out)[t] == h;
        SurvivorIsLive(Ptrs(es), OutPtrs(out), db, raws, h);
      }
    }
  }

  // ---------- Every step keeps the invariant ----------

  lemma HitConserves(w: World, sql: string, outcome: Compiled)
    requires Inv(w) && Find(w.cache.entries, Trim(sql)).Some?
    ensures var w' := Step(w, Get(sql, outcome));
            Conserved(Ptrs(w'.cache.entries), OutPtrs(w'.out), w'.cache.db)
  {
    var w' := Step(w, Get(sql, outcome));
    WithoutPtrs(w.cache.entries, Trim(sql));
    OutGrows(w.out, w'.out[|w.out|]);
  }

  lemma HitKeepsInv(w: World, sql: string, outcome: Compiled)
    requires Inv(w) && Find(w.cache.entries, Trim(sql)).Some?
    ensures Inv(Step(w, Get(sql, outcome)))
  {
    var key := Trim(sql);
    var es := w.cache.entries;
    WithoutMembers(es, key);
    WithoutDistinct(es, key);
    FindFacts(es, key);
    HitConserves(w, sql, outcome);
    assert GoodEntry(Entry(key, Find(es, key).value), w.cache.db);
  }

  lemma {:induction false} RefusalLeavesNothingOpen(db: Sqlite, n: nat)
    ensures var after := OpenAndFinalize(db, n);
            && after.live == db.live && after.next == db.next + n
            && forall h: Handle ::
                 after.finalized[h] == db.finalized[h] + if db.next <= h < db.next + n then 1 else 0
    decreases n
  {
    if n > 0 {
      RefusalLeavesNothingOpen(db.(finalized := db.finalized + multiset{db.next}, next := db.next + 1), n - 1);
    }
  }

  lemma PrepareGrows(db: Sqlite, sql: string, outcome: Compiled)
    ensures var db' := Prepare(db, sql, outcome).0;
            forall h :: h in db.live && h != db.next ==> h in db'.live && db'.live[h] == db.live[h]
  {
    if outcome.Refused? {
      RefusalLeavesNothingOpen(db, outcome.tried);
    }
  }

  lemma MissKeepsInv(w: World, sql: string, outcome: Compiled)
    requires Inv(w) && Find(w.cache.entries, Trim(sql)).None?
    ensures Inv(Step(w, Get(sql, outcome)))
  {
    var w' := Step(w, Get(sql, outcome));
    MissConserves(w, sql, outcome);
    PrepareGrows(w.cache.db, Trim(sql), outcome);
    forall u | 0 <= u < |w.out| && w.out[u].Some? ensures GoodCheckout(w'.out[u].value, w'.cache.db) {
      assert GoodCheckout(w.out[u].value, w.cache.db);
    }
    forall e | e in w.cache.entries ensures GoodEntry(e, w'.cache.db) {
      assert GoodEntry(e, w.cache.db);
    }
  }

  lemma MissConserves(w: World, sql: string, outcome: Compiled)
    requires Inv(w) && Find(w.cache.entries, Trim(sql)).None?
    ensures var w' := Step(w, Get(sql, outcome));
            Conserved(Ptrs(w'.cache.entries), OutPtrs(w'.out), w'.cache.db)
  {
    var w' := Step(w, Get(sql, outcome));
    OutGrows(w.out, w'.out[|w.out|]);
    if outcome.Refused? {
      RefusalLeavesNothingOpen(w.cache.db, outcome.tried);
    } else {
      assert w'.cache.db.finalized == w.cache.db.finalized;
    }
  }

  /** Changing one checked-out statement disturbs nothing else. */
  lemma EditKeepsInv(w: World, t: nat, c: Checkout, s: Stmt)
    requires Inv(w) && t < |w.out| && w.out[t].Some?
    requires c.raw == w.out[t].value.raw
    requires c.raw.ptr in w.cache.db.live ==>
               s.sql == w.cache.db.live[c.raw.ptr].sql && (!c.rows ==> !s.running)
    ensures Inv(WithDb(w.(out := w.out[t := Some(c)]), WithStmt(w.cache.db, c.raw.ptr, s)))
  {
    var h := c.raw.ptr;
    var out, db := w.out[t := Some(c)], WithStmt(w.cache.db, h, s);
    assert OutPtrs(out) == OutPtrs(w.out);
    if h != 0 {
      CheckoutIsAlone(w, t);
    }
    forall e | e in w.cache.entries ensures GoodEntry(e, db) {
      assert GoodEntry(e, w.cache.db);
      assert e.raw.ptr != h || h == 0;
    }
    forall u | 0 <= u < |out| && out[u].Some? ensures GoodCheckout(out[u].value, db) {
      assert GoodCheckout(w.out[u].value, w.cache.db);
      if u != t && h != 0 {
        assert OutPtr(w.out[u]) != h;
      }
    }
  }

  /** Taking a checked-out statement away takes away its one handle. */
  lemma OutTaken(out: seq<Option<Checkout>>, t: nat)
    requires t < |out|
    ensures var h := OutPtr(out[t]);
            multiset(OutPtrs(out[t := None]))[h] + (if h == 0 then 0 else 1) == multiset(OutPtrs(out))[h]
    ensures forall h: Handle :: 0 < h && h != OutPtr(out[t]) ==>
              multiset(OutPtrs(out[t := None]))[h] == multiset(OutPtrs(out))[h]
  {
    OutMoves(out, t, None);
    assert OutPtrs(out)[t] == OutPtr(out[t]);
  }

  lemma ReturnKeepsInv(w: World, t: nat)
    requires Inv(w) && Holds(w, t, false)
    ensures Inv(Step(w, Return(t)))
  {
    if w.out[t].value.raw.ptr == 0 {
      assert OutPtrs(w.out[t := None]) == OutPtrs(w.out);
    } else {
      RealReturnKeepsInv(w, t);
    }
  }

  lemma RealReturnKeepsInv(w: World, t: nat)
    requires Inv(w) && Holds(w, t, false) && w.out[t].value.raw.ptr != 0
    ensures Inv(World(TakeBack(w.cache, w.out[t].value.raw), w.out[t := None]))
  {
    var raw := w.out[t].value.raw;
    OutTaken(w.out, t);
    UnboundKeeps(w, t);
    ReturnedFits(w.cache.entries, w.cache.capacity, w.out[t := None], ClearBindings(w.cache.db, raw.ptr), raw,
                 Ptrs(w.cache.entries), OutPtrs(w.out));
  }

  lemma ReturnedFits(es: seq<Entry>, capacity: nat, out: seq<Option<Checkout>>, db: Sqlite, raw: Raw,
                     cached: seq<Handle>, held: seq<Handle>)
    requires raw.key.Some? && raw.ptr != 0
    requires Conserved(cached, held, db) && cached == Ptrs(es)
    requires multiset(OutPtrs(out))[raw.ptr] + 1 == multiset(held)[raw.ptr]
    requires forall h: Handle :: 0 < h && h != raw.ptr ==> multiset(OutPtrs(out))[h] == multiset(held)[h]
    requires |es| <= capacity && DistinctKeys(es) && GoodEntries(es, db)
    requires GoodEntry(Entry(raw.key.value, raw), db)
    requires forall t :: 0 <= t < |out| && out[t].Some? ==> GoodCheckout(out[t].value, db)
    ensures var (kept, dropped) := LruInsert(es, capacity, raw.key.value, raw);
            Inv(World(CacheState(kept, capacity, DropAll(db, dropped)), out))
  {
    var (kept, dropped) := LruInsert(es, capacity, raw.key.value, raw);
    InsertMembers(es, capacity, raw.key.value, raw);
    InsertPtrs(es, capacity, raw.key.value, raw);
    forall h: Handle | 0 < h
      ensures multiset(Ptrs(kept))[h] + multiset(OutPtrs(out))[h] + multiset(RawPtrs(dropped))[h]
              == multiset(cached)[h] + multiset(held)[h]
    {
      var sum := multiset(Ptrs(kept)) + multiset(RawPtrs(dropped));
      assert sum[h] == multiset(cached)[h] + (if h == raw.ptr then 1 else 0);
    }
    InvAfterDrops(kept, capacity, out, db, dropped, cached, held);
  }

  /** Once its bindings are cleared, a statement nobody steps is as good as a cached one. */
  lemma UnboundKeeps(w: World, t: nat)
    requires Inv(w) && Holds(w, t, false) && w.out[t].value.raw.ptr != 0
    ensures var raw := w.out[t].value.raw;
            var db := ClearBindings(w.cache.db, raw.ptr);
            && Conserved(Ptrs(w.cache.entries), OutPtrs(w.out), db)
            && GoodEntries(w.cache.entries, db)
            && raw.key.Some? && GoodEntry(Entry(raw.key.value, raw), db)
            && (forall u :: 0 <= u < |w.out| && u != t && w.out[u].Some? ==> GoodCheckout(w.out[u].value, db))
  {
    var raw := w.out[t].value.raw;
    var db := ClearBindings(w.cache.db, raw.ptr);
    assert GoodCheckout(w.out[t].value, w.cache.db);
    CheckoutIsAlone(w, t);
    forall u | 0 <= u < |w.out| && u != t && w.out[u].Some? ensures GoodCheckout(w.out[u].value, db) {
      assert GoodCheckout(w.out[u].value, w.cache.db);
      assert OutPtr(w.out[u]) != raw.ptr;
    }
    forall e | e in w.cache.entries ensures GoodEntry(e, db) {
      assert GoodEntry(e, w.cache.db);
    }
  }

  lemma DiscardKeepsInv(w: World, t: nat)
    requires Inv(w) && Holds(w, t, false)
    ensures Inv(Step(w, Discard(t)))
  {
    var raw := w.out[t].value.raw;
    OutTaken(w.out, t);
    DropOne(w.cache.db, raw);
    InvAfterDrops(w.cache.entries, w.cache.capacity, w.out[t := None], w.cache.db, [raw],
                  Ptrs(w.cache.entries), OutPtrs(w.out));
  }

  lemma DropOne(db: Sqlite, raw: Raw)
    ensures DropAll(db, [raw]) == Finalize(db, raw.ptr) && RawPtrs([raw]) == [raw.ptr]
  {
    assert [raw][1..] == [];
  }

  lemma ResizeKeepsInv(w: World, capacity: nat)
    requires Inv(w)
    ensures Inv(w.(cache := Resized(w.cache, capacity)))
  {
    var es := w.cache.entries;
    var (kept, dropped) := LruResize(es, capacity);
    assert RawPtrs(dropped) == Ptrs(es[|kept|..]);
    assert Ptrs(es) == Ptrs(kept) + Ptrs(es[|kept|..]);
    InvAfterDrops(kept, capacity, w.out, w.cache.db, dropped, Ptrs(es), OutPtrs(w.out));
  }

  lemma FlushKeepsInv(w: World)
    requires Inv(w)
    ensures Inv(w.(cache := Flushed(w.cache)))
  {
    var es := w.cache.entries;
    assert RawPtrs(Raws(es)) == Ptrs(es);
    assert Ptrs([]) == [];
    InvAfterDrops([], w.cache.capacity, w.out, w.cache.db, Raws(es), Ptrs(es), OutPtrs(w.out));
  }

  lemma StepKeepsInv(w: World, op: Op)
    requires Inv(w)
    ensures Inv(Step(w, op))
  {
    match op {
      case Get(sql, outcome) =>
        if Find(w.cache.entries, Trim(sql)).Some? {
          HitKeepsInv(w, sql, outcome);
        } else {
          MissKeepsInv(w, sql, outcome);
        }
      case Bind(t, index, value) => BindKeepsInv(w, t, index, value);
      case OpenRows(t) => OpenRowsKeepsInv(w, t);
      case StepRows(t, more) =>
        if Holds(w, t, true) {
          var c := w.out[t].value;
          assert w.out[t := Some(c)] == w.out;
          RunningKeepsInv(w, t, c, more);
        }
      case CloseRows(t) =>
        if Holds(w, t, true) {
          RunningKeepsInv(w, t, w.out[t].value.(rows := false), false);
        }
      case Return(t) =>
        if Holds(w, t, false) { ReturnKeepsInv(w, t); }
      case Discard(t) =>
        if Holds(w, t, false) { DiscardKeepsInv(w, t); }
      case Flush => FlushKeepsInv(w);
      case Resize(capacity) => ResizeKeepsInv(w, capacity);
    }
  }

  lemma BindKeepsInv(w: World, t: nat, index: nat, value: int)
    requires Inv(w)
    ensures Inv(Step(w, Bind(t, index, value)))
  {
    if Holds(w, t, false) && w.out[t].value.raw.ptr in w.cache.db.live {
      var c := w.out[t].value;
      var s := w.cache.db.live[c.raw.ptr];
      assert w.out[t := Some(c)] == w.out;
      assert GoodCheckout(c, w.cache.db);
      EditKeepsInv(w, t, c, s.(bindings := s.bindings[index := value]));
    }
  }

  lemma OpenRowsKeepsInv(w: World, t: nat)
    requires Inv(w)
    ensures Inv(Step(w, OpenRows(t)))
  {
    if Holds(w, t, false) {
      var c := w.out[t].value.(rows := true);
      var s := StmtOr(w.cache.db, c.raw.ptr);
      EditKeepsInv(w, t, c, s);
      RewritesNothing(w.cache.db, c.raw.ptr);
    }
  }

  function StmtOr(db: Sqlite, h: Handle): Stmt {
    if h in db.live then db.live[h] else FreshStmt("")
  }

  lemma RewritesNothing(db: Sqlite, h: Handle)
    ensures WithStmt(db, h, StmtOr(db, h)) == db
  {
    if h in db.live {
      assert db.live[h := db.live[h]] == db.live;
    }
  }

  lemma RunningKeepsInv(w: World, t: nat, c: Checkout, running: bool)
    requires Inv(w) && t < |w.out| && w.out[t].Some? && c.raw == w.out[t].value.raw
    requires c.rows || !running
    ensures Inv(WithDb(w.(out := w.out[t := Some(c)]), SetRunning(w.cache.db, c.raw.ptr, running)))
  {
    var h := c.raw.ptr;
    var s := if h in w.cache.db.live then w.cache.db.live[h].(running := running) else FreshStmt("");
    EditKeepsInv(w, t, c, s);
  }

  // ---------- Main results ----------

  /** In every reachable state each handle ever prepared is cached, checked out or finalized, in
      exactly one of these ways and exactly once; the cache is within its capacity; and each cached
      statement is ready, unbound and filed under the text it was compiled from. */
  lemma {:induction false} HandlesAreConserved(capacity: nat, ops: seq<Op>)
    ensures Inv(Run(Init(capacity), ops))
    decreases |ops|
  {
    if ops == [] {
      assert Ptrs([]) == [] && OutPtrs([]) == [];
    } else {
      HandlesAreConserved(capacity, ops[..|ops| - 1]);
      StepKeepsInv(Run(Init(capacity), ops[..|ops| - 1]), ops[|ops| - 1]);
    }
  }

  /** A flush with nothing checked out leaves no live statement, so a close meets none, and every
      handle ever prepared has been finalized exactly once. */
  lemma FlushLeavesNothingOpen(capacity: nat, ops: seq<Op>)
    requires forall t :: 0 <= t < |Run(Init(capacity), ops).out| ==> Run(Init(capacity), ops).out[t].None?
    ensures var db := Flushed(Run(Init(capacity), ops).cache).db;
            db.live == map[] && forall h: Handle :: 0 < h < db.next ==> db.finalized[h] == 1
  {
    var w := Run(Init(capacity), ops);
    HandlesAreConserved(capacity, ops);
    FlushKeepsInv(w);
    var w' := w.(cache := Flushed(w.cache));
    assert Ptrs(w'.cache.entries) == [];
    var out := OutPtrs(w'.out);
    assert forall i :: 0 <= i < |out| ==> out[i] == 0;
    forall h: Handle | 0 < h < w'.cache.db.next ensures w'.cache.db.finalized[h] == 1 {
      assert h !in out;
    }
  }
}

/**
 Transactions and savepoints (src/transaction.rs) over SQLite's savepoint stack.

 The environment is the stack the SAVEPOINT page of SQLite's documentation describes: RELEASE and
 ROLLBACK TO act on the innermost savepoint whose name matches, and releasing the outermost one
 commits. `Transaction` and `Savepoint` are classes over a connection and talk to it only through
 SQL text. Scopes nested in any way are a `Prog`; `RunBody` runs one on real handles, `RunProg` is
 what the stack machine does with it, and `Mean` and `Simple` are its meaning without a stack.
 */
module Transactions {
  import opened Wrappers
  import opened SqlText

  // ---------- SQLite's savepoint stack ----------

  /** A frame remembers the contents at its creation. `Begun` is an explicit BEGIN, only ever lowest. */
  datatype Frame<C> = Begun(saved: C) | Saved(name: string, saved: C)

  /** How SQLite answers an attempt to lock the database, to begin a locking transaction or to make the
      outermost level durable: it may be busy and leave everything as it is, or give up and roll the
      whole transaction back. */
  datatype Verdict = Proceed | Busy | Abort

  /** The connection is in autocommit mode exactly when `stack` is empty. `verdicts` are the answers
      to the coming attempts; when it runs out they proceed. */
  datatype Env<C> = Env(contents: C, stack: seq<Frame<C>>, verdicts: seq<Verdict>)

  /** What does not change: SQLite's keywords, and the deferred constraints. */
  datatype Rules<!C> = Rules(keywords: set<string>, violates: C -> bool)

  predicate IsNamed<C>(f: Frame<C>, name: string) {
    f.Saved? && SameName(f.name, name)
  }

  predicate Matches<C>(frames: seq<Frame<C>>, name: string) {
    exists i :: 0 <= i < |frames| && IsNamed(frames[i], name)
  }

  /** The index of the most recent savepoint of that name, or -1. */
  function Innermost<C>(stack: seq<Frame<C>>, name: string): (i: int)
    ensures -1 <= i < |stack|
  {
    if stack == [] then -1
    else if IsNamed(stack[|stack| - 1], name) then |stack| - 1
    else Innermost(stack[..|stack| - 1], name)
  }

  function NextVerdict<C>(e: Env<C>): Verdict {
    if e.verdicts == [] then Proceed else e.verdicts[0]
  }

  predicate CommitAllowed<C>(r: Rules<C>, e: Env<C>) {
    !r.violates(e.contents) && NextVerdict(e) == Proceed
  }

  function LaterVerdicts(verdicts: seq<Verdict>): seq<Verdict> {
    if verdicts == [] then [] else verdicts[1..]
  }

  /** COMMIT, or RELEASE of the outermost savepoint. A deferred constraint refuses it first. */
  function EndOutermost<C>(r: Rules<C>, e: Env<C>): (Env<C>, bool)
    requires e.stack != []
  {
    if r.violates(e.contents) then (e, false)
    else
      var rest := LaterVerdicts(e.verdicts);
      match NextVerdict(e)
      case Proceed => (Env(e.contents, [], rest), true)
      case Busy => (Env(e.contents, e.stack, rest), false)
      case Abort => (Env(e.stack[0].saved, [], rest), false)
  }

  function Exec<C>(r: Rules<C>, e: Env<C>, cmd: Command): (Env<C>, bool) {
    match cmd
    case Begin(behavior) =>
      if e.stack != [] then (e, false)
      else if behavior == Deferred then (e.(stack := [Begun(e.contents)]), true)
      else if NextVerdict(e) == Proceed then
        (Env(e.contents, [Begun(e.contents)], LaterVerdicts(e.verdicts)), true)
      else (e.(verdicts := LaterVerdicts(e.verdicts)), false)
    case CommitAll =>
      if e.stack == [] then (e, false) else EndOutermost(r, e)
    case RollbackAll =>
      if e.stack == [] then (e, false) else (e.(contents := e.stack[0].saved, stack := []), true)
    case SetSavepoint(name) =>
      (e.(stack := e.stack + [Saved(name, e.contents)]), true)
    case Release(name) =>
      var i := Innermost(e.stack, name);
      if i < 0 then (e, false)
      else if i == 0 then EndOutermost(r, e)
      else (e.(stack := e.stack[..i]), true)
    case RollbackTo(name) =>
      var i := Innermost(e.stack, name);
      if i < 0 then (e, false)
      else (e.(contents := e.stack[i].saved, stack := e.stack[..i + 1]), true)
  }

  function ExecSql<C>(r: Rules<C>, e: Env<C>, sql: string): (Env<C>, bool) {
    match ParseCommand(r.keywords, sql)
    case None => (e, false)
    case Some(cmd) => Exec(r, e, cmd)
  }

  class Connection<C> {
    const rules: Rules<C>
    var env: Env<C>
    var issued: seq<string>

    constructor (rules: Rules<C>, env: Env<C>)
      ensures this.rules == rules && this.env == env && issued == []
    {
      this.rules := rules;
      this.env := env;
      issued := [];
    }

    predicate IsAutocommit()
      reads this
    {
      env.stack == []
    }

    method ExecuteBatch(sql: string) returns (ok: bool)
      modifies this
      ensures (env, ok) == ExecSql(rules, old(env), sql)
      ensures issued == old(issued) + [sql]
    {
      var r := ExecSql(rules, env, sql);
      env, ok := r.0, r.1;
      issued := issued + [sql];
    }

    /** Any other statement of the client: it changes the contents only. */
    method Write(f: C -> C)
      modifies this`env
      ensures env == old(env).(contents := f(old(env).contents))
    {
      env := env.(contents := f(env.contents));
    }
  }

  // ---------- The handles ----------

  datatype DropBehavior = Rollback | Commit | Ignore | Panic

  datatype Outcome = Succeeded | Failed | Panicked

  function OutcomeOf(ok: bool): Outcome {
    if ok then Succeeded else Failed
  }

  /** `rollback` and then, if that worked, release. */
  function UndoAndRelease<C>(r: Rules<C>, e: Env<C>, name: string): (Env<C>, bool) {
    var (e1, undone) := Exec(r, e, RollbackTo(name));
    if undone then Exec(r, e1, Release(name)) else (e1, false)
  }

  /** What finishing an uncommitted savepoint does; the flag says whether it was released. */
  function FinishSavepoint<C>(r: Rules<C>, e: Env<C>, name: string, b: DropBehavior): (Env<C>, Outcome, bool) {
    match b
    case Commit =>
      var (e1, ok) := Exec(r, e, Release(name));
      if ok then (e1, Succeeded, true)
      else
        var (e2, ok2) := UndoAndRelease(r, e1, name);
        (e2, OutcomeOf(ok2), ok2)
    case Rollback =>
      var (e1, ok) := UndoAndRelease(r, e, name);
      (e1, OutcomeOf(ok), ok)
    case Ignore => (e, Succeeded, false)
    case Panic => (e, Panicked, false)
  }

  function FinishTransaction<C>(r: Rules<C>, e: Env<C>, b: DropBehavior): (Env<C>, Outcome) {
    if e.stack == [] then (e, Succeeded)
    else
      match b
      case Commit =>
        var (e1, ok) := Exec(r, e, CommitAll);
        if ok then (e1, Succeeded)
        else
          var (e2, ok2) := Exec(r, e1, RollbackAll);
          (e2, OutcomeOf(ok2))
      case Rollback =>
        var (e1, ok) := Exec(r, e, RollbackAll);
        (e1, OutcomeOf(ok))
      case Ignore => (e, Succeeded)
      case Panic => (e, Panicked)
  }

  /** The ways a handle goes away. The behavior is the one set when it does. */
  datatype Ending = Commits(b: DropBehavior) | Finishes(b: DropBehavior) | Drops(b: DropBehavior)

  /** A consuming call is followed by the drop of the handle it consumed. */
  function EndSavepoint<C>(r: Rules<C>, e: Env<C>, name: string, ending: Ending): Env<C> {
    match ending
    case Commits(b) =>
      var (e1, ok) := Exec(r, e, Release(name));
      if ok then e1 else FinishSavepoint(r, e1, name, b).0
    case Finishes(b) =>
      var (e1, _, committed) := FinishSavepoint(r, e, name, b);
      if committed then e1 else FinishSavepoint(r, e1, name, b).0
    case Drops(b) => FinishSavepoint(r, e, name, b).0
  }

  function EndTransaction<C>(r: Rules<C>, e: Env<C>, ending: Ending): Env<C> {
    match ending
    case Commits(b) => FinishTransaction(r, Exec(r, e, CommitAll).0, b).0
    case Finishes(b) => FinishTransaction(r, FinishTransaction(r, e, b).0, b).0
    case Drops(b) => FinishTransaction(r, e, b).0
  }

  class Transaction<C> {
    const conn: Connection<C>
    var dropBehavior: DropBehavior

    constructor (conn: Connection<C>)
      ensures this.conn == conn && dropBehavior == DropBehavior.Rollback
    {
      this.conn := conn;
      dropBehavior := DropBehavior.Rollback;
    }

    static method NewUnchecked(conn: Connection<C>, behavior: TransactionBehavior)
      returns (r: Option<Transaction<C>>)
      modifies conn
      ensures (conn.env, r.Some?) == Exec(conn.rules, old(conn.env), Begin(behavior))
      ensures |conn.issued| == |old(conn.issued)| + 1
      ensures ParseCommand(conn.rules.keywords, conn.issued[|conn.issued| - 1]) == Some(Begin(behavior))
      ensures r.Some? ==> fresh(r.value) && r.value.conn == conn && r.value.dropBehavior == DropBehavior.Rollback
    {
      var mode := match behavior
                  case Deferred => "DEFERRED"
                  case Immediate => "IMMEDIATE"
                  case Exclusive => "EXCLUSIVE";
      FoldedWords();
      ParseBegin(conn.rules.keywords, "BEGIN", mode);
      var ok := conn.ExecuteBatch("BEGIN" + " " + mode);
      if !ok {
        return None;
      }
      var tx := new Transaction(conn);
      return Some(tx);
    }

    method SetDropBehavior(b: DropBehavior)
      modifies this
      ensures dropBehavior == b
    {
      dropBehavior := b;
    }

    method CommitInner() returns (ok: bool)
      modifies conn
      ensures (conn.env, ok) == Exec(conn.rules, old(conn.env), CommitAll)
      ensures |conn.issued| == |old(conn.issued)| + 1
    {
      FoldedWords();
      var sql := "COMMIT";
      ParseWord(conn.rules.keywords, sql);
      ok := conn.ExecuteBatch(sql);
    }

    method RollbackInner() returns (ok: bool)
      modifies conn
      ensures (conn.env, ok) == Exec(conn.rules, old(conn.env), RollbackAll)
      ensures |conn.issued| == |old(conn.issued)| + 1
    {
      FoldedWords();
      var sql := "ROLLBACK";
      ParseWord(conn.rules.keywords, sql);
      ok := conn.ExecuteBatch(sql);
    }

    /** Issues nothing when the connection is already back in autocommit mode. */
    method FinishInner() returns (o: Outcome)
      modifies conn
      ensures (conn.env, o) == FinishTransaction(conn.rules, old(conn.env), dropBehavior)
      ensures o == if old(conn.IsAutocommit()) then Succeeded
                   else if dropBehavior == Panic then Panicked
                   else if && dropBehavior == DropBehavior.Commit
                           && !conn.rules.violates(old(conn.env.contents))
                           && NextVerdict(old(conn.env)) == Abort then Failed
                   else Succeeded
      ensures old(conn.IsAutocommit()) ==> conn.issued == old(conn.issued)
    {
      if conn.IsAutocommit() {
        return Succeeded;
      }
      match dropBehavior {
        case Commit =>
          var ok := CommitInner();
          if !ok {
            ok := RollbackInner();
          }
          o := OutcomeOf(ok);
        case Rollback =>
          var ok := RollbackInner();
          o := OutcomeOf(ok);
        case Ignore =>
          o := Succeeded;
        case Panic =>
          o := Panicked;
      }
    }

    method Drop()
      modifies conn
      ensures conn.env == FinishTransaction(conn.rules, old(conn.env), dropBehavior).0
      ensures old(conn.IsAutocommit()) ==> conn.issued == old(conn.issued)
    {
      var _ := FinishInner();
    }

    method Commit() returns (ok: bool)
      modifies conn
      ensures conn.env == EndTransaction(conn.rules, old(conn.env), Commits(dropBehavior))
      ensures ok == Exec(conn.rules, old(conn.env), CommitAll).1
      ensures ok ==> |conn.issued| == |old(conn.issued)| + 1
    {
      ok := CommitInner();
      Drop();
    }

    method Rollback() returns (ok: bool)
      modifies conn
      ensures (conn.env, ok) == Exec(conn.rules, old(conn.env), RollbackAll)
      ensures ok ==> |conn.issued| == |old(conn.issued)| + 1
    {
      ok := RollbackInner();
      Drop();
    }

    method Finish() returns (o: Outcome)
      modifies conn
      ensures conn.env == EndTransaction(conn.rules, old(conn.env), Finishes(dropBehavior))
      ensures o == if old(conn.IsAutocommit()) then Succeeded
                   else if dropBehavior == Panic then Panicked
                   else if && dropBehavior == DropBehavior.Commit
                           && !conn.rules.violates(old(conn.env.contents))
                           && NextVerdict(old(conn.env)) == Abort then Failed
                   else Succeeded
    {
      o := FinishInner();
      Drop();
    }

    method End(ending: Ending)
      modifies this, conn
      ensures conn.env == EndTransaction(conn.rules, old(conn.env), ending)
    {
      SetDropBehavior(ending.b);
      match ending {
        case Commits(_) => var _ := Commit();
        case Finishes(_) => var _ := Finish();
        case Drops(_) => Drop();
      }
    }
  }

  class Savepoint<C> {
    const conn: Connection<C>
    const name: string
    var dropBehavior: DropBehavior
    var committed: bool

    /** A handle exists only for a name SQLite took. */
    ghost predicate Valid() {
      AcceptedName(conn.rules.keywords, name) && KnowsCommandWords(conn.rules.keywords)
    }

    constructor (conn: Connection<C>, name: string)
      ensures this.conn == conn && this.name == name && dropBehavior == DropBehavior.Rollback && !committed
    {
      this.conn := conn;
      this.name := name;
      dropBehavior := DropBehavior.Rollback;
      committed := false;
    }

    static method WithName(conn: Connection<C>, name: string) returns (r: Option<Savepoint<C>>)
      requires KnowsCommandWords(conn.rules.keywords)
      modifies conn
      ensures r.Some? <==> AcceptedName(conn.rules.keywords, name)
      ensures conn.env == if r.Some? then Exec(conn.rules, old(conn.env), SetSavepoint(name)).0 else old(conn.env)
      ensures r.Some? ==> fresh(r.value) && r.value.Valid() && r.value.conn == conn && r.value.name == name
      ensures r.Some? ==> r.value.dropBehavior == DropBehavior.Rollback && !r.value.committed
    {
      FoldedWords();
      CommandRoundTrip(conn.rules.keywords, name);
      var sql := Cmd(conn.rules.keywords, "SAVEPOINT", false, name);
      if sql.None? {
        return None;
      }
      var ok := conn.ExecuteBatch(sql.value);
      if !ok {
        return None;
      }
      var sp := new Savepoint(conn, name);
      return Some(sp);
    }

    /** A savepoint without a name of its own gets the one all of these share. */
    static method New(conn: Connection<C>) returns (r: Option<Savepoint<C>>)
      requires KnowsCommandWords(conn.rules.keywords)
      modifies conn
      ensures r.Some? <==> !IsKeyword(conn.rules.keywords, "_rusqlite_sp")
      ensures conn.env == if r.Some? then Exec(conn.rules, old(conn.env), SetSavepoint("_rusqlite_sp")).0
                          else old(conn.env)
      ensures r.Some? ==> fresh(r.value) && r.value.Valid() && r.value.conn == conn
      ensures r.Some? ==> r.value.name == "_rusqlite_sp"
      ensures r.Some? ==> r.value.dropBehavior == DropBehavior.Rollback && !r.value.committed
    {
      var name := "_rusqlite_sp";
      r := WithName(conn, name);
    }

    method SetDropBehavior(b: DropBehavior)
      modifies this`dropBehavior
      ensures dropBehavior == b
    {
      dropBehavior := b;
    }

    method CommitInner() returns (ok: bool)
      requires Valid()
      modifies this`committed, conn
      ensures (conn.env, ok) == Exec(conn.rules, old(conn.env), Release(name))
      ensures committed == (old(committed) || ok)
      ensures |conn.issued| == |old(conn.issued)| + 1
    {
      FoldedWords();
      CommandRoundTrip(conn.rules.keywords, name);
      var sql := Cmd(conn.rules.keywords, "RELEASE", false, name);
      if sql.None? {
        return false;
      }
      ok := conn.ExecuteBatch(sql.value);
      if ok {
        committed := true;
      }
    }

    method Rollback() returns (ok: bool)
      requires Valid()
      modifies conn
      ensures (conn.env, ok) == Exec(conn.rules, old(conn.env), RollbackTo(name))
    {
      FoldedWords();
      CommandRoundTrip(conn.rules.keywords, name);
      var sql := Cmd(conn.rules.keywords, "ROLLBACK", true, name);
      if sql.None? {
        return false;
      }
      ok := conn.ExecuteBatch(sql.value);
    }

    /** Issues nothing once the savepoint is committed. */
    method FinishInner() returns (o: Outcome)
      requires Valid()
      modifies this`committed, conn
      ensures old(committed) ==> o == Succeeded && conn.env == old(conn.env) && conn.issued == old(conn.issued)
      ensures !old(committed) ==>
                (conn.env, o, committed) == FinishSavepoint(conn.rules, old(conn.env), name, dropBehavior)
      ensures !old(committed) ==>
                && (dropBehavior == Panic <==> o == Panicked)
                && (dropBehavior == Ignore ==> o == Succeeded && !committed && conn.issued == old(conn.issued))
                && (dropBehavior != Ignore ==> (o == Succeeded <==> committed))
      ensures old(committed) ==> committed
    {
      if committed {
        return Succeeded;
      }
      match dropBehavior {
        case Commit =>
          var ok := CommitInner();
          if !ok {
            ok := Rollback();
            if ok {
              ok := CommitInner();
            }
          }
          o := OutcomeOf(ok);
        case Rollback =>
          var ok := Rollback();
          if ok {
            ok := CommitInner();
          }
          o := OutcomeOf(ok);
        case Ignore =>
          o := Succeeded;
        case Panic =>
          o := Panicked;
      }
    }

    method Drop()
      requires Valid()
      modifies this`committed, conn
      ensures conn.env == if old(committed) then old(conn.env)
                          else FinishSavepoint(conn.rules, old(conn.env), name, dropBehavior).0
      ensures old(committed) ==> conn.issued == old(conn.issued)
    {
      var _ := FinishInner();
    }

    method Commit() returns (ok: bool)
      requires Valid() && !committed
      modifies this`committed, conn
      ensures conn.env == EndSavepoint(conn.rules, old(conn.env), name, Commits(dropBehavior))
      ensures ok == Exec(conn.rules, old(conn.env), Release(name)).1
      ensures ok ==> |conn.issued| == |old(conn.issued)| + 1
    {
      ok := CommitInner();
      Drop();
    }

    method Finish() returns (o: Outcome)
      requires Valid() && !committed
      modifies this`committed, conn
      ensures conn.env == EndSavepoint(conn.rules, old(conn.env), name, Finishes(dropBehavior))
      ensures o == FinishSavepoint(conn.rules, old(conn.env), name, dropBehavior).1
    {
      o := FinishInner();
      Drop();
    }

    method End(ending: Ending)
      requires Valid() && !committed
      modifies this, conn
      ensures conn.env == EndSavepoint(conn.rules, old(conn.env), name, ending)
    {
      SetDropBehavior(ending.b);
      match ending {
        case Commits(_) => var _ := Commit();
        case Finishes(_) => var _ := Finish();
        case Drops(_) => Drop();
      }
    }
  }

  // ---------- Nested scopes ----------

  /** Everything a client can do inside a scope: write, roll back in the middle, open a nested
      savepoint, run a whole scope in it and end it. */
  datatype Prog<!C> =
    | Stop
    | Write(f: C -> C, next: Prog<C>)
    | Undo(next: Prog<C>)
    | Scope(name: string, body: Prog<C>, ending: Ending, next: Prog<C>)

  /** Runs a client on real handles. `sp` is the handle of the scope, null inside a Transaction,
      which has no mid-scope rollback. */
  method RunBody<C>(conn: Connection<C>, sp: Savepoint?<C>, p: Prog<C>)
    requires KnowsCommandWords(conn.rules.keywords)
    requires sp != null ==> sp.Valid() && sp.conn == conn
    modifies conn
    ensures conn.env ==
            RunProg(conn.rules, old(conn.env), p, if sp == null then None else Some(sp.name))
    decreases p
  {
    match p {
      case Stop =>
      case Write(f, next) =>
        conn.Write(f);
        RunBody(conn, sp, next);
      case Undo(next) =>
        if sp != null {
          var _ := sp.Rollback();
        }
        RunBody(conn, sp, next);
      case Scope(name, body, ending, next) =>
        var inner := Savepoint.WithName(conn, name);
        if inner.Some? {
          RunBody(conn, inner.value, body);
          inner.value.End(ending);
        }
        RunBody(conn, sp, next);
    }
  }

  /** What the stack machine does with a client. */
  function RunProg<C>(r: Rules<C>, e: Env<C>, p: Prog<C>, self: Option<string>): Env<C>
    decreases p
  {
    match p
    case Stop => e
    case Write(f, next) => RunProg(r, e.(contents := f(e.contents)), next, self)
    case Undo(next) =>
      RunProg(r, if self.Some? then Exec(r, e, RollbackTo(self.value)).0 else e, next, self)
    case Scope(name, body, ending, next) =>
      if AcceptedName(r.keywords, name) then
        var e1 := Exec(r, e, SetSavepoint(name)).0;
        var e2 := RunProg(r, e1, body, Some(name));
        RunProg(r, EndSavepoint(r, e2, name, ending), next, self)
      else
        RunProg(r, e, next, self)
  }

  predicate NoPanic<C>(p: Prog<C>) {
    match p
    case Stop => true
    case Write(_, next) => NoPanic(next)
    case Undo(next) => NoPanic(next)
    case Scope(_, body, ending, next) => ending.b != Panic && NoPanic(body) && NoPanic(next)
  }

  predicate NoIgnore<C>(p: Prog<C>) {
    match p
    case Stop => true
    case Write(_, next) => NoIgnore(next)
    case Undo(next) => NoIgnore(next)
    case Scope(_, body, ending, next) => Aim(ending) != Ignore && NoIgnore(body) && NoIgnore(next)
  }

  /** What an ending is for. */
  function Aim(ending: Ending): DropBehavior {
    if ending.Commits? then DropBehavior.Commit else ending.b
  }

  /** Contents and leaked frames at the end of a scope, or the news that a scope's name was captured
      by a savepoint leaked inside it. */
  datatype Meaning<C> = Captured | Ran(contents: C, leaks: seq<Frame<C>>)

  /** The meaning of a scope that was entered with contents `entry`: no stack is consulted. */
  function Mean<C>(keywords: set<string>, p: Prog<C>, self: Option<string>, entry: C, now: C,
                   leaks: seq<Frame<C>>): Meaning<C>
    decreases p
  {
    match p
    case Stop => Ran(now, leaks)
    case Write(f, next) => Mean(keywords, next, self, entry, f(now), leaks)
    case Undo(next) =>
      if self.None? then Mean(keywords, next, self, entry, now, leaks)
      else if Matches(leaks, self.value) then Captured
      else Mean(keywords, next, self, entry, entry, [])
    case Scope(name, body, ending, next) =>
      if !AcceptedName(keywords, name) then Mean(keywords, next, self, entry, now, leaks)
      else
        match Mean(keywords, body, Some(name), now, now, [])
        case Captured => Captured
        case Ran(result, inner) =>
          if Aim(ending) == Ignore then
            Mean(keywords, next, self, entry, result, leaks + [Saved(name, now)] + inner)
          else if Matches(inner, name) then Captured
          else
            Mean(keywords, next, self, entry, if Aim(ending) == DropBehavior.Commit then result else now, leaks)
  }

  /** The textbook meaning of nested scopes: commit keeps the body's result, rollback restores the
      contents at entry, and a savepoint SQLite refuses does not run. */
  function Simple<C>(keywords: set<string>, p: Prog<C>, self: Option<string>, entry: C, now: C): C
    decreases p
  {
    match p
    case Stop => now
    case Write(f, next) => Simple(keywords, next, self, entry, f(now))
    case Undo(next) => Simple(keywords, next, self, entry, if self.Some? then entry else now)
    case Scope(name, body, ending, next) =>
      var kept := AcceptedName(keywords, name) && Aim(ending) == DropBehavior.Commit;
      Simple(keywords, next, self, entry, if kept then Simple(keywords, body, Some(name), now, now) else now)
  }

  // ---------- The stack finds the right frame ----------

  lemma {:induction false} InnermostIsOwn<C>(base: seq<Frame<C>>, leaks: seq<Frame<C>>, name: string)
    requires base != [] && IsNamed(base[|base| - 1], name) && !Matches(leaks, name)
    ensures Innermost(base + leaks, name) == |base| - 1
  {
    var stack := base + leaks;
    if leaks == [] {
      assert stack == base;
    } else {
      var shorter := leaks[..|leaks| - 1];
      assert stack[..|stack| - 1] == base + shorter;
      assert !IsNamed(leaks[|leaks| - 1], name);
      InnermostIsOwn(base, shorter, name);
    }
  }

  lemma {:induction false} InnermostAtLeast<C>(stack: seq<Frame<C>>, k: nat, name: string)
    requires k < |stack| && IsNamed(stack[k], name)
    ensures k <= Innermost(stack, name)
  {
    if !IsNamed(stack[|stack| - 1], name) {
      InnermostAtLeast(stack[..|stack| - 1], k, name);
    }
  }

  /** On its own frame, with another below it, a savepoint always ends as it was meant to. */
  lemma NestedEnding<C>(r: Rules<C>, e: Env<C>, base: seq<Frame<C>>, name: string, entry: C,
                        leaks: seq<Frame<C>>, ending: Ending)
    requires base != [] && e.stack == base + [Saved(name, entry)] + leaks
    requires ending.b != Panic
    requires Aim(ending) != Ignore ==> !Matches(leaks, name)
    ensures EndSavepoint(r, e, name, ending) ==
            match Aim(ending)
            case Commit => Env(e.contents, base, e.verdicts)
            case Rollback => Env(entry, base, e.verdicts)
            case _ => e
  {
    if Aim(ending) != Ignore {
      var own := base + [Saved(name, entry)];
      InnermostIsOwn(own, leaks, name);
      InnermostIsOwn(own, [], name);
      assert own + [] == own;
      assert e.stack[..|base|] == base && e.stack[..|own|] == own && own[..|base|] == base;
    }
  }

  /** Every client, with any names, writes and leaks, leaves the frames below its scope untouched and
      never reaches the outermost level. */
  lemma {:induction false} BaseIsKept<C>(r: Rules<C>, e: Env<C>, p: Prog<C>, self: Option<string>, base: seq<Frame<C>>)
    requires base != [] && base <= e.stack
    requires self.Some? ==> IsNamed(base[|base| - 1], self.value)
    ensures base <= RunProg(r, e, p, self).stack
    ensures RunProg(r, e, p, self).verdicts == e.verdicts
    decreases p
  {
    match p {
      case Stop =>
      case Write(f, next) =>
        BaseIsKept(r, e.(contents := f(e.contents)), next, self, base);
      case Undo(next) =>
        if self.Some? {
          InnermostAtLeast(e.stack, |base| - 1, self.value);
          BaseIsKept(r, Exec(r, e, RollbackTo(self.value)).0, next, self, base);
        } else {
          BaseIsKept(r, e, next, self, base);
        }
      case Scope(name, body, ending, next) =>
        if AcceptedName(r.keywords, name) {
          var e1 := Exec(r, e, SetSavepoint(name)).0;
          BaseIsKept(r, e1, body, Some(name), e1.stack);
          var e2 := RunProg(r, e1, body, Some(name));
          EndingKeepsBase(r, e2, e.stack, name, ending);
          BaseIsKept(r, EndSavepoint(r, e2, name, ending), next, self, base);
        } else {
          BaseIsKept(r, e, next, self, base);
        }
    }
  }

  lemma ReleaseKeepsBase<C>(r: Rules<C>, e: Env<C>, base: seq<Frame<C>>, name: string)
    requires base != [] && base < e.stack && IsNamed(e.stack[|base|], name)
    ensures var (e1, ok) := Exec(r, e, Release(name));
            ok && base <= e1.stack && e1.verdicts == e.verdicts
    ensures var (e1, ok) := Exec(r, e, RollbackTo(name));
            ok && base < e1.stack && IsNamed(e1.stack[|base|], name) && e1.verdicts == e.verdicts
  {
    InnermostAtLeast(e.stack, |base|, name);
  }

  lemma EndingKeepsBase<C>(r: Rules<C>, e: Env<C>, base: seq<Frame<C>>, name: string, ending: Ending)
    requires base != [] && base < e.stack && IsNamed(e.stack[|base|], name)
    ensures base <= EndSavepoint(r, e, name, ending).stack
    ensures EndSavepoint(r, e, name, ending).verdicts == e.verdicts
  {
    ReleaseKeepsBase(r, e, base, name);
    ReleaseKeepsBase(r, Exec(r, e, RollbackTo(name)).0, base, name);
  }

  // ---------- Main results ----------

  /** Whenever the meaning is not a capture, the handles running on the stack machine end with the
      contents it gives, with the stack as it was plus exactly the savepoints left open on purpose,
      and without ever trying to commit the outermost level. */
  lemma {:induction false} NestedScopesRefine<C>(r: Rules<C>, e: Env<C>, p: Prog<C>, self: Option<string>,
                                                base: seq<Frame<C>>, entry: C, leaks: seq<Frame<C>>)
    requires NoPanic(p)
    requires base != [] && e.stack == base + leaks
    requires self.Some? ==> base[|base| - 1] == Saved(self.value, entry)
    requires Mean(r.keywords, p, self, entry, e.contents, leaks).Ran?
    ensures var m := Mean(r.keywords, p, self, entry, e.contents, leaks);
            RunProg(r, e, p, self) == Env(m.contents, base + m.leaks, e.verdicts)
    decreases p, 0
  {
    match p {
      case Stop =>
      case Write(f, next) =>
        NestedScopesRefine(r, e.(contents := f(e.contents)), next, self, base, entry, leaks);
      case Undo(next) =>
        if self.Some? {
          InnermostIsOwn(base, leaks, self.value);
          assert e.stack[..|base|] == base == base + [];
          NestedScopesRefine(r, Env(entry, base, e.verdicts), next, self, base, entry, []);
        } else {
          NestedScopesRefine(r, e, next, self, base, entry, leaks);
        }
      case Scope(name, body, ending, next) =>
        if AcceptedName(r.keywords, name) {
          ScopeRefines(r, e, name, body, ending);
          var inner := Mean(r.keywords, body, Some(name), e.contents, e.contents, []);
          var e3 := EndSavepoint(r, RunProg(r, Exec(r, e, SetSavepoint(name)).0, body, Some(name)), name, ending);
          var leaks' := if Aim(ending) == Ignore then leaks + [Saved(name, e.contents)] + inner.leaks else leaks;
          assert e3.stack == base + leaks';
          NestedScopesRefine(r, e3, next, self, base, entry, leaks');
        } else {
          NestedScopesRefine(r, e, next, self, base, entry, leaks);
        }
    }
  }

  lemma {:induction false} ScopeRefines<C>(r: Rules<C>, e: Env<C>, name: string, body: Prog<C>, ending: Ending)
    requires NoPanic(body) && ending.b != Panic && e.stack != []
    requires Mean(r.keywords, body, Some(name), e.contents, e.contents, []).Ran?
    requires Aim(ending) != Ignore ==>
               !Matches(Mean(r.keywords, body, Some(name), e.contents, e.contents, []).leaks, name)
    ensures var inner := Mean(r.keywords, body, Some(name), e.contents, e.contents, []);
            var e2 := RunProg(r, Exec(r, e, SetSavepoint(name)).0, body, Some(name));
            EndSavepoint(r, e2, name, ending) ==
            match Aim(ending)
            case Commit => Env(inner.contents, e.stack, e.verdicts)
            case Rollback => e
            case _ => Env(inner.contents, e.stack + [Saved(name, e.contents)] + inner.leaks, e.verdicts)
    decreases body, 1
  {
    var own := e.stack + [Saved(name, e.contents)];
    var inner := Mean(r.keywords, body, Some(name), e.contents, e.contents, []);
    assert own + [] == own;
    NestedScopesRefine(r, Env(e.contents, own, e.verdicts), body, Some(name), own, e.contents, []);
    NestedEnding(r, Env(inner.contents, own + inner.leaks, e.verdicts), e.stack, name, e.contents, inner.leaks, ending);
  }

  /** With nothing left open, there is no capture and the meaning is the textbook one. */
  lemma {:induction false} NoIgnoreIsSimple<C>(keywords: set<string>, p: Prog<C>, self: Option<string>, entry: C, now: C)
    requires NoIgnore(p)
    ensures Mean(keywords, p, self, entry, now, []) == Ran(Simple(keywords, p, self, entry, now), [])
    decreases p
  {
    match p {
      case Stop =>
      case Write(f, next) => NoIgnoreIsSimple(keywords, next, self, entry, f(now));
      case Undo(next) => NoIgnoreIsSimple(keywords, next, self, entry, if self.Some? then entry else now);
      case Scope(name, body, ending, next) =>
        NoIgnoreIsSimple(keywords, body, Some(name), now, now);
        var kept := AcceptedName(keywords, name) && Aim(ending) == DropBehavior.Commit;
        NoIgnoreIsSimple(keywords, next, self, entry,
                         if kept then Simple(keywords, body, Some(name), now, now) else now);
    }
  }

  /** Scopes that all end in commit or rollback restore the stack exactly, although every default
      savepoint has the same name, and give the textbook contents. */
  lemma NestedScopes<C>(r: Rules<C>, e: Env<C>, p: Prog<C>, self: Option<string>, entry: C)
    requires NoPanic(p) && NoIgnore(p) && e.stack != []
    requires self.Some? ==> e.stack[|e.stack| - 1] == Saved(self.value, entry)
    ensures RunProg(r, e, p, self) ==
            Env(Simple(r.keywords, p, self, entry, e.contents), e.stack, e.verdicts)
  {
    NoIgnoreIsSimple(r.keywords, p, self, entry, e.contents);
    assert e.stack + [] == e.stack;
    NestedScopesRefine(r, e, p, self, e.stack, entry, []);
  }

  /** A leaked savepoint of the same name captures the enclosing one, outermost or not: both commands act
      on the innermost leak, they succeed, and the stack stays deeper than the enclosing savepoint. */
  lemma LeakCaptures<C>(r: Rules<C>, e: Env<C>, base: seq<Frame<C>>, name: string, entry: C,
                        below: seq<Frame<C>>, leak: Frame<C>, above: seq<Frame<C>>)
    requires e.stack == base + [Saved(name, entry)] + below + [leak] + above
    requires IsNamed(leak, name) && !Matches(above, name)
    ensures var deeper := base + [Saved(name, entry)] + below;
            && Exec(r, e, RollbackTo(name)) == (Env(leak.saved, deeper + [leak], e.verdicts), true)
            && Exec(r, e, Release(name)) == (Env(e.contents, deeper, e.verdicts), true)
            && FinishSavepoint(r, e, name, Rollback) == (Env(leak.saved, deeper, e.verdicts), Succeeded, true)
            && FinishSavepoint(r, e, name, DropBehavior.Commit) == (Env(e.contents, deeper, e.verdicts), Succeeded, true)
  {
    var deeper := base + [Saved(name, entry)] + below;
    var own := deeper + [leak];
    InnermostIsOwn(own, above, name);
    InnermostIsOwn(own, [], name);
    assert own + [] == own;
    assert e.stack[..|deeper|] == deeper && e.stack[..|own|] == own && own[..|deeper|] == deeper;
  }

  /** However a captured savepoint ends, outermost or not, it is the innermost leak of its name that is
      released or rolled back, and the savepoint itself stays open. */
  lemma CapturedEnding<C>(r: Rules<C>, e: Env<C>, base: seq<Frame<C>>, name: string, entry: C,
                          leaks: seq<Frame<C>>, ending: Ending)
    requires e.stack == base + [Saved(name, entry)] + leaks && Matches(leaks, name)
    requires ending.b != Panic && Aim(ending) != Ignore
    ensures var i := Innermost(e.stack, name);
            && |base| < i
            && EndSavepoint(r, e, name, ending) ==
               Env(if Aim(ending) == Rollback then e.stack[i].saved else e.contents, e.stack[..i], e.verdicts)
  {
    var k :| 0 <= k < |leaks| && IsNamed(leaks[k], name);
    InnermostAtLeast(e.stack, |base| + 1 + k, name);
    EndingCuts(r, e, name, ending);
  }

  /** A savepoint that is not left open on purpose takes the stack back to where it was at its creation
      exactly when nothing leaked above it has its name and, for an outermost one, its attempts to close
      the transaction are not all refused. */
  lemma EndsAtEntryIffNoCapture<C>(r: Rules<C>, e: Env<C>, base: seq<Frame<C>>, name: string, entry: C,
                                   leaks: seq<Frame<C>>, ending: Ending)
    requires e.stack == base + [Saved(name, entry)] + leaks
    requires ending.b != Panic && Aim(ending) != Ignore
    ensures EndSavepoint(r, e, name, ending).stack == base <==>
            !Matches(leaks, name) && (base == [] ==> FateOf(r, e, entry, ending).0 != Open)
  {
    if Matches(leaks, name) {
      CapturedEnding(r, e, base, name, entry, leaks, ending);
    } else if base != [] {
      NestedEnding(r, e, base, name, entry, leaks, ending);
    } else {
      assert e.stack == [Saved(name, entry)] + leaks;
      OutermostEnding(r, e, name, entry, leaks, ending);
    }
  }

  /** Above the outermost level, ending a savepoint cuts the stack below the innermost match. */
  lemma EndingCuts<C>(r: Rules<C>, e: Env<C>, name: string, ending: Ending)
    requires Innermost(e.stack, name) > 0
    requires ending.b != Panic && Aim(ending) != Ignore
    ensures var i := Innermost(e.stack, name);
            EndSavepoint(r, e, name, ending) ==
            Env(if Aim(ending) == Rollback then e.stack[i].saved else e.contents, e.stack[..i], e.verdicts)
  {
    var i := Innermost(e.stack, name);
    InnermostMatches(e.stack, name);
    InnermostAtLeast(e.stack[..i + 1], i, name);
    assert e.stack[..i + 1][..i] == e.stack[..i];
  }

  lemma {:induction false} InnermostMatches<C>(stack: seq<Frame<C>>, name: string)
    ensures Innermost(stack, name) >= 0 ==> IsNamed(stack[Innermost(stack, name)], name)
  {
    if stack != [] && !IsNamed(stack[|stack| - 1], name) {
      InnermostMatches(stack[..|stack| - 1], name);
    }
  }

  /** A program that gets there from autocommit: an inner savepoint of the same name is left open, the
      outer one is committed and reports success, and the connection is still in a transaction. */
  lemma CommittedYetOpen<C>(r: Rules<C>, e: Env<C>, name: string, f: C -> C)
    requires e.stack == [] && AcceptedName(r.keywords, name)
    ensures var leaky := Write(f, Scope(name, Stop, Drops(Ignore), Stop));
            var body := RunProg(r, Exec(r, e, SetSavepoint(name)).0, leaky, Some(name));
            && Exec(r, body, Release(name)).1
            && RunProg(r, e, Scope(name, leaky, Commits(Rollback), Stop), None) ==
               Env(f(e.contents), [Saved(name, e.contents)], e.verdicts)
  {
    var outer, inner := Saved(name, e.contents), Saved(name, f(e.contents));
    var body := Env(f(e.contents), [outer, inner], e.verdicts);
    var entered := Exec(r, e, SetSavepoint(name)).0;
    assert entered.stack == [outer];
    assert Exec(r, entered.(contents := f(e.contents)), SetSavepoint(name)).0 == body;
    assert RunProg(r, body, Stop, Some(name)) == body;
    var leaky := Write(f, Scope(name, Stop, Drops(Ignore), Stop));
    assert RunProg(r, entered, leaky, Some(name)) == body;
    assert body.stack == [] + [outer] + [] + [inner] + [];
    LeakCaptures(r, body, [], name, e.contents, [], inner, []);
  }

  // ---------- The outermost level ----------

  /** How the outermost level comes out: closed with what was done in it, closed with what it began
      with, or still open. */
  datatype Fate = Kept | Undone | Open

  /** What a number of attempts comes to, without a stack: first `commits` of them to make the body
      durable, then `undos` to close on the entry contents. Contents that violate a constraint are
      refused before SQLite is asked; otherwise it answers with the next verdict. */
  function Settle(bodyViolates: bool, entryViolates: bool, verdicts: seq<Verdict>, commits: nat, undos: nat)
    : (Fate, seq<Verdict>)
    decreases commits + undos
  {
    if commits + undos == 0 then (Open, verdicts)
    else
      var (c, u) := if commits > 0 then (commits - 1, undos) else (0, undos - 1);
      if (if commits > 0 then bodyViolates else entryViolates) then Settle(bodyViolates, entryViolates, verdicts, c, u)
      else
        match if verdicts == [] then Proceed else verdicts[0]
        case Proceed => (if commits > 0 then Kept else Undone, LaterVerdicts(verdicts))
        case Abort => (Undone, LaterVerdicts(verdicts))
        case Busy => Settle(bodyViolates, entryViolates, LaterVerdicts(verdicts), c, u)
  }

  /** How often each way of ending a savepoint tries to commit its body, and then to close it undone.
      A consuming call that fails is followed by the drop, which tries again. */
  function Attempts(ending: Ending): (nat, nat) {
    if ending.Commits? then
      (if ending.b == DropBehavior.Commit then 2 else 1, if ending.b == Ignore then 0 else 1)
    else if ending.b == DropBehavior.Commit then (1, if ending.Finishes? then 3 else 1)
    else if ending.b == Rollback then (0, if ending.Finishes? then 2 else 1)
    else (0, 0)
  }

  function FateOf<C>(r: Rules<C>, e: Env<C>, entry: C, ending: Ending): (Fate, seq<Verdict>) {
    var (commits, undos) := Attempts(ending);
    Settle(r.violates(e.contents), r.violates(entry), e.verdicts, commits, undos)
  }

  function Settled<C>(r: Rules<C>, e: Env<C>, name: string, entry: C, ending: Ending): Env<C> {
    var (fate, verdicts) := FateOf(r, e, entry, ending);
    match fate
    case Kept => Env(e.contents, [], verdicts)
    case Undone => Env(entry, [], verdicts)
    case Open =>
      if Attempts(ending).1 == 0 then e.(verdicts := verdicts) else Env(entry, [Saved(name, entry)], verdicts)
  }

  /** An attempt to commit is one step of `Settle`. */
  lemma CommitAttempt<C>(r: Rules<C>, e: Env<C>, entryViolates: bool, commits: nat, undos: nat)
    requires e.stack != [] && commits > 0
    ensures var (after, ok) := EndOutermost(r, e);
            Settle(r.violates(e.contents), entryViolates, e.verdicts, commits, undos) ==
            if ok then (Kept, after.verdicts)
            else if after.stack == [] then (Undone, after.verdicts)
            else Settle(r.violates(e.contents), entryViolates, after.verdicts, commits - 1, undos)
  {
  }

  /** So is an attempt to close on the entry contents. */
  lemma UndoAttempt<C>(r: Rules<C>, e: Env<C>, bodyViolates: bool, undos: nat)
    requires e.stack != [] && undos > 0
    ensures var after := EndOutermost(r, e).0;
            Settle(bodyViolates, r.violates(e.contents), e.verdicts, 0, undos) ==
            if after.stack == [] then (Undone, after.verdicts)
            else Settle(bodyViolates, r.violates(e.contents), after.verdicts, 0, undos - 1)
  {
  }

  /** Finishing and dropping a savepoint, with any number of attempts to undo left for later. */
  lemma OutermostFinish<C>(r: Rules<C>, e: Env<C>, name: string, entry: C, leaks: seq<Frame<C>>, b: DropBehavior,
                           later: nat)
    requires e.stack == [Saved(name, entry)] + leaks && !Matches(leaks, name)
    requires b == Rollback || b == DropBehavior.Commit
    ensures var (done, outcome, committed) := FinishSavepoint(r, e, name, b);
            var commits := if b == DropBehavior.Commit then 1 else 0;
            var bodyViolates, entryViolates := r.violates(e.contents), r.violates(entry);
            && (committed <==> outcome == Succeeded)
            && (committed ==> done.stack == [])
            && (done.stack == [] || done == Env(entry, [Saved(name, entry)], done.verdicts))
            && Settle(bodyViolates, entryViolates, e.verdicts, commits, 1 + later) ==
               (if done.stack != [] then Settle(bodyViolates, entryViolates, done.verdicts, 0, later)
                else (if commits == 1 && CommitAllowed(r, e) then Kept else Undone, done.verdicts))
            && (done.stack == [] ==>
                  done.contents == if commits == 1 && CommitAllowed(r, e) then e.contents else entry)
  {
    OutermostUndo(r, e, name, entry, leaks);
    var undone := Env(entry, [Saved(name, entry)], e.verdicts);
    if b == Rollback {
      UndoAttempt(r, undone, r.violates(e.contents), 1 + later);
    } else {
      CommitAttempt(r, e, r.violates(entry), 1, 1 + later);
      var refused := EndOutermost(r, e).0;
      if refused.stack != [] {
        OutermostUndo(r, refused, name, entry, leaks);
        UndoAttempt(r, undone.(verdicts := refused.verdicts), r.violates(e.contents), 1 + later);
      }
    }
  }

  /** Whatever the way of ending, the outermost savepoint ends as its attempts come out: all or nothing. */
  lemma OutermostEnding<C>(r: Rules<C>, e: Env<C>, name: string, entry: C, leaks: seq<Frame<C>>, ending: Ending)
    requires e.stack == [Saved(name, entry)] + leaks && !Matches(leaks, name)
    requires ending.b != Panic
    ensures EndSavepoint(r, e, name, ending) == Settled(r, e, name, entry, ending)
  {
    match ending {
      case Commits(b) => OutermostCommits(r, e, name, entry, leaks, b);
      case Finishes(b) => OutermostFinishes(r, e, name, entry, leaks, b);
      case Drops(b) => OutermostDrops(r, e, name, entry, leaks, b);
    }
  }

  lemma OutermostDrops<C>(r: Rules<C>, e: Env<C>, name: string, entry: C, leaks: seq<Frame<C>>, b: DropBehavior)
    requires e.stack == [Saved(name, entry)] + leaks && !Matches(leaks, name) && b != Panic
    ensures FinishSavepoint(r, e, name, b).0 == Settled(r, e, name, entry, Drops(b))
  {
    if b != Ignore {
      OutermostFinish(r, e, name, entry, leaks, b, 0);
      DropIsSettled(r, e, FinishSavepoint(r, e, name, b).0, name, entry, b);
    }
  }

  lemma DropIsSettled<C>(r: Rules<C>, e: Env<C>, done: Env<C>, name: string, entry: C, b: DropBehavior)
    requires b == Rollback || b == DropBehavior.Commit
    requires var commits := if b == DropBehavior.Commit then 1 else 0;
             var kept := commits == 1 && CommitAllowed(r, e);
             && (done.stack == [] || done == Env(entry, [Saved(name, entry)], done.verdicts))
             && Settle(r.violates(e.contents), r.violates(entry), e.verdicts, commits, 1 + 0) ==
                (if done.stack != [] then Settle(r.violates(e.contents), r.violates(entry), done.verdicts, 0, 0)
                 else (if kept then Kept else Undone, done.verdicts))
             && (done.stack == [] ==> done.contents == if kept then e.contents else entry)
    ensures done == Settled(r, e, name, entry, Drops(b))
  {
    var commits := if b == DropBehavior.Commit then 1 else 0;
    assert Attempts(Drops(b)) == (commits, 1);
    assert Settle(r.violates(e.contents), r.violates(entry), done.verdicts, 0, 0) == (Open, done.verdicts);
  }

  lemma OutermostCommits<C>(r: Rules<C>, e: Env<C>, name: string, entry: C, leaks: seq<Frame<C>>, b: DropBehavior)
    requires e.stack == [Saved(name, entry)] + leaks && !Matches(leaks, name) && b != Panic
    ensures EndSavepoint(r, e, name, Commits(b)) == Settled(r, e, name, entry, Commits(b))
  {
    OutermostUndo(r, e, name, entry, leaks);
    var (commits, undos) := Attempts(Commits(b));
    CommitAttempt(r, e, r.violates(entry), commits, undos);
    var (refused, ok) := EndOutermost(r, e);
    if refused.stack == [] {
      assert EndSavepoint(r, e, name, Commits(b)) == refused;
    } else {
      assert !ok && refused == e.(verdicts := refused.verdicts);
      OutermostDrops(r, refused, name, entry, leaks, b);
      assert FateOf(r, refused, entry, Drops(b)) == FateOf(r, e, entry, Commits(b));
    }
  }

  lemma OutermostFinishes<C>(r: Rules<C>, e: Env<C>, name: string, entry: C, leaks: seq<Frame<C>>, b: DropBehavior)
    requires e.stack == [Saved(name, entry)] + leaks && !Matches(leaks, name) && b != Panic
    ensures EndSavepoint(r, e, name, Finishes(b)) == Settled(r, e, name, entry, Finishes(b))
  {
    if b != Ignore {
      OutermostFinish(r, e, name, entry, leaks, b, if b == Rollback then 1 else 2);
      var once := FinishSavepoint(r, e, name, b).0;
      if once.stack != [] {
        FinishedTwice(r, e, once, name, entry, b);
      }
    }
  }

  /** The drop after a `finish` that failed tries on the entry contents, once or twice more. */
  lemma FinishedTwice<C>(r: Rules<C>, e: Env<C>, once: Env<C>, name: string, entry: C, b: DropBehavior)
    requires once == Env(entry, [Saved(name, entry)], once.verdicts)
    requires b == Rollback || b == DropBehavior.Commit
    ensures var twice := FinishSavepoint(r, once, name, b).0;
            var (fate, verdicts) :=
              Settle(r.violates(e.contents), r.violates(entry), once.verdicts, 0, if b == Rollback then 1 else 2);
            twice == Env(entry, if fate == Open then [Saved(name, entry)] else [], verdicts) && fate != Kept
  {
    assert once.stack == [Saved(name, entry)] + [];
    OutermostUndo(r, once, name, entry, []);
    UndoAttempt(r, once, r.violates(e.contents), if b == Rollback then 1 else 2);
    var refused := EndOutermost(r, once).0;
    if refused.stack != [] {
      assert refused.stack == [Saved(name, entry)] + [];
      OutermostUndo(r, refused, name, entry, []);
      UndoAttempt(r, refused, r.violates(e.contents), 1);
    }
  }

  lemma OutermostUndo<C>(r: Rules<C>, e: Env<C>, name: string, entry: C, leaks: seq<Frame<C>>)
    requires e.stack == [Saved(name, entry)] + leaks && !Matches(leaks, name)
    ensures Exec(r, e, RollbackTo(name)) == (Env(entry, [Saved(name, entry)], e.verdicts), true)
    ensures Exec(r, e, Release(name)) == EndOutermost(r, e)
    ensures var undone := Env(entry, [Saved(name, entry)], e.verdicts);
            UndoAndRelease(r, e, name) == EndOutermost(r, undone)
  {
    InnermostIsOwn([Saved(name, entry)], leaks, name);
    InnermostIsOwn([Saved(name, entry)], [], name);
    assert e.stack[..1] == [Saved(name, entry)] == [Saved(name, entry)] + [];
  }

  /** The outermost savepoint, however it ends and whatever was leaked in it: captured by a leak of its
      name it stays open; otherwise its attempts decide between the whole body, the entry contents, and
      staying open on the entry contents or, if it was not to be closed, as it was. */
  lemma OutermostSavepointAllOrNothing<C>(r: Rules<C>, e: Env<C>, name: string, entry: C, leaks: seq<Frame<C>>,
                                          ending: Ending)
    requires e.stack == [Saved(name, entry)] + leaks && ending.b != Panic
    ensures var done, i := EndSavepoint(r, e, name, ending), Innermost(e.stack, name);
            if Aim(ending) == Ignore then done == e
            else if Matches(leaks, name) then
              0 < i && done == Env(if Aim(ending) == Rollback then e.stack[i].saved else e.contents, e.stack[..i], e.verdicts)
            else done == Settled(r, e, name, entry, ending)
  {
    if Aim(ending) == Ignore {
    } else if Matches(leaks, name) {
      assert e.stack == [] + [Saved(name, entry)] + leaks;
      CapturedEnding(r, e, [], name, entry, leaks, ending);
    } else {
      OutermostEnding(r, e, name, entry, leaks, ending);
    }
  }

  /** What finishing reports, for any savepoint whose frame is on the stack: success when it is nested or
      captured or left open, and for an outermost one exactly when an attempt to close it went through,
      on the body under commit or, once that was refused, on the entry contents. */
  lemma SavepointReports<C>(r: Rules<C>, e: Env<C>, base: seq<Frame<C>>, name: string, entry: C,
                            leaks: seq<Frame<C>>, b: DropBehavior)
    requires e.stack == base + [Saved(name, entry)] + leaks
    ensures var outcome, committed := FinishSavepoint(r, e, name, b).1, FinishSavepoint(r, e, name, b).2;
            var first := NextVerdict(e);
            var second := NextVerdict(e.(verdicts := LaterVerdicts(e.verdicts)));
            && (b == Panic ==> outcome == Panicked && !committed)
            && (b == Ignore ==> outcome == Succeeded && !committed)
            && (b == Rollback || b == DropBehavior.Commit ==>
                  && outcome != Panicked && (committed <==> outcome == Succeeded)
                  && (base != [] || Matches(leaks, name) ==> outcome == Succeeded))
            && (b == Rollback && base == [] && !Matches(leaks, name) ==>
                  (outcome == Succeeded <==> !r.violates(entry) && first == Proceed))
            && (b == DropBehavior.Commit && base == [] && !Matches(leaks, name) ==>
                  (outcome == Succeeded <==>
                     if r.violates(e.contents) then !r.violates(entry) && first == Proceed
                     else first == Proceed || (first == Busy && !r.violates(entry) && second == Proceed)))
  {
    if b == Panic || b == Ignore {
    } else if base != [] || Matches(leaks, name) {
      InnerReports(r, e, base, name, entry, leaks, b);
    } else {
      assert e.stack == [Saved(name, entry)] + leaks;
      OutermostReports(r, e, name, entry, leaks, b);
    }
  }

  lemma InnerReports<C>(r: Rules<C>, e: Env<C>, base: seq<Frame<C>>, name: string, entry: C,
                        leaks: seq<Frame<C>>, b: DropBehavior)
    requires e.stack == base + [Saved(name, entry)] + leaks && (base != [] || Matches(leaks, name))
    requires b == Rollback || b == DropBehavior.Commit
    ensures FinishSavepoint(r, e, name, b).1 == Succeeded && FinishSavepoint(r, e, name, b).2
  {
    assert IsNamed(e.stack[|base|], name);
    InnermostAtLeast(e.stack, |base|, name);
    if Matches(leaks, name) {
      var k :| 0 <= k < |leaks| && IsNamed(leaks[k], name);
      InnermostAtLeast(e.stack, |base| + 1 + k, name);
    }
    CutReports(r, e, name, b);
  }

  lemma CutReports<C>(r: Rules<C>, e: Env<C>, name: string, b: DropBehavior)
    requires Innermost(e.stack, name) > 0
    requires b == Rollback || b == DropBehavior.Commit
    ensures FinishSavepoint(r, e, name, b).1 == Succeeded && FinishSavepoint(r, e, name, b).2
  {
    var i := Innermost(e.stack, name);
    InnermostMatches(e.stack, name);
    InnermostAtLeast(e.stack[..i + 1], i, name);
  }

  lemma OutermostReports<C>(r: Rules<C>, e: Env<C>, name: string, entry: C, leaks: seq<Frame<C>>, b: DropBehavior)
    requires e.stack == [Saved(name, entry)] + leaks && !Matches(leaks, name)
    requires b == Rollback || b == DropBehavior.Commit
    ensures var (_, outcome, committed) := FinishSavepoint(r, e, name, b);
            var first := NextVerdict(e);
            var second := NextVerdict(e.(verdicts := LaterVerdicts(e.verdicts)));
            && outcome != Panicked && (committed <==> outcome == Succeeded)
            && (b == Rollback ==> (committed <==> !r.violates(entry) && first == Proceed))
            && (b == DropBehavior.Commit ==>
                  (committed <==>
                     if r.violates(e.contents) then !r.violates(entry) && first == Proceed
                     else first == Proceed || (first == Busy && !r.violates(entry) && second == Proceed)))
  {
    OutermostUndo(r, e, name, entry, leaks);
    var refused := EndOutermost(r, e).0;
    if refused.stack != [] {
      OutermostUndo(r, refused, name, entry, leaks);
    }
  }

  /** What finishing under commit reports: success whenever it was captured, though the savepoint is still
      open, and otherwise success only if it is closed, which a constraint alone never prevents. */
  lemma FinishReports<C>(r: Rules<C>, e: Env<C>, name: string, entry: C, leaks: seq<Frame<C>>)
    requires e.stack == [Saved(name, entry)] + leaks
    ensures var (done, outcome, committed) := FinishSavepoint(r, e, name, DropBehavior.Commit);
            && (committed <==> outcome == Succeeded)
            && (Matches(leaks, name) ==> committed && done.stack != [] && done.contents == e.contents)
            && (!Matches(leaks, name) && committed ==> done.stack == [])
            && (!Matches(leaks, name) && e.verdicts == [] && !r.violates(entry) ==> committed)
  {
    if Matches(leaks, name) {
      assert e.stack == [] + [Saved(name, entry)] + leaks;
      CapturedEnding(r, e, [], name, entry, leaks, Drops(DropBehavior.Commit));
    } else {
      OutermostUndo(r, e, name, entry, leaks);
      OutermostFinish(r, e, name, entry, leaks, DropBehavior.Commit, 0);
    }
  }

  /** A consuming commit that fails under the default drop behavior has undone the scope, and has closed
      it exactly if SQLite aborted the transaction or lets the entry contents through. */
  lemma FailedCommitIsUndone<C>(r: Rules<C>, e: Env<C>, name: string, entry: C, leaks: seq<Frame<C>>)
    requires e.stack == [Saved(name, entry)] + leaks
    requires !Exec(r, e, Release(name)).1
    ensures var done, refused := EndSavepoint(r, e, name, Commits(Rollback)), Exec(r, e, Release(name)).0;
            && done.contents == entry
            && (done.stack == [] || done.stack == [Saved(name, entry)])
            && (done.stack == [] <==>
                  refused.stack == [] || (!r.violates(entry) && NextVerdict(refused) != Busy))
  {
    if Matches(leaks, name) {
      var k :| 0 <= k < |leaks| && IsNamed(leaks[k], name);
      InnermostAtLeast(e.stack, 1 + k, name);
    } else {
      OutermostUndo(r, e, name, entry, leaks);
      var refused := EndOutermost(r, e).0;
      if refused.stack != [] {
        OutermostUndo(r, refused, name, entry, leaks);
      }
    }
  }

  /** A whole outermost savepoint scope: its body means the textbook contents, and its attempts decide. When
      only deferred constraints can refuse it, it always ends closed, with the textbook contents unless they
      violate a constraint. */
  lemma OutermostScope<C>(r: Rules<C>, e: Env<C>, name: string, p: Prog<C>, ending: Ending)
    requires e.stack == []
    requires NoPanic(p) && NoIgnore(p) && ending.b != Panic
    ensures var result := Simple(r.keywords, p, Some(name), e.contents, e.contents);
            var body := RunProg(r, Exec(r, e, SetSavepoint(name)).0, p, Some(name));
            var done := EndSavepoint(r, body, name, ending);
            && body == Env(result, [Saved(name, e.contents)], e.verdicts)
            && done == Settled(r, body, name, e.contents, ending)
            && (e.verdicts == [] && !r.violates(e.contents) && ending.b != Ignore ==>
                  done == e.(contents := if Aim(ending) == DropBehavior.Commit && !r.violates(result) then result
                                         else e.contents))
  {
    var entered := Exec(r, e, SetSavepoint(name)).0;
    var frame := Saved(name, e.contents);
    assert entered.stack == [frame] == [frame] + [];
    NestedScopes(r, entered, p, Some(name), e.contents);
    var body := RunProg(r, entered, p, Some(name));
    OutermostEnding(r, body, name, e.contents, [], ending);
    if e.verdicts == [] && !r.violates(e.contents) && ending.b != Ignore {
      SettleUncontended(r.violates(body.contents), Attempts(ending).0, Attempts(ending).1);
    }
  }

  /** With nobody else about, one attempt each way is enough. */
  lemma {:induction false} SettleUncontended(bodyViolates: bool, commits: nat, undos: nat)
    requires undos > 0
    ensures Settle(bodyViolates, false, [], commits, undos) ==
            (if commits > 0 && !bodyViolates then Kept else Undone, [])
  {
    if commits > 0 {
      SettleUncontended(bodyViolates, commits - 1, undos);
    }
  }

  /** A transaction tries to commit as often as a savepoint does; to roll it back needs only one attempt. */
  function SettledTransaction<C>(r: Rules<C>, e: Env<C>, entry: C, ending: Ending): Env<C> {
    var (fate, verdicts) := Settle(r.violates(e.contents), true, e.verdicts, Attempts(ending).0, 0);
    if fate == Kept then Env(e.contents, [], verdicts)
    else if fate == Open && ending.b == Ignore then e.(verdicts := verdicts)
    else Env(entry, [], verdicts)
  }

  /** Whatever was leaked in a Transaction, it ends with the whole body or with the entry contents, which
      its attempts to commit decide, and back in autocommit mode unless it was to be left open. */
  lemma TransactionAllOrNothing<C>(r: Rules<C>, e: Env<C>, behavior: TransactionBehavior, p: Prog<C>, ending: Ending)
    requires e.stack == [] && Exec(r, e, Begin(behavior)).1 && ending.b != Panic
    ensures var body := RunProg(r, Exec(r, e, Begin(behavior)).0, p, None);
            var done := EndTransaction(r, body, ending);
            && done == SettledTransaction(r, body, e.contents, ending)
            && (ending.b != Ignore || (ending.Commits? && CommitAllowed(r, body)) ==> done.stack == [])
            && (!ending.Commits? && ending.b == DropBehavior.Commit ==>
                  done.contents == if CommitAllowed(r, body) then body.contents else e.contents)
  {
    var begun := Exec(r, e, Begin(behavior)).0;
    BaseIsKept(r, begun, p, None, begun.stack);
    var body := RunProg(r, begun, p, None);
    assert body.stack[0] == Begun(e.contents);
    TransactionEnding(r, body, ending);
  }

  lemma TransactionEnding<C>(r: Rules<C>, e: Env<C>, ending: Ending)
    requires e.stack != [] && ending.b != Panic
    ensures EndTransaction(r, e, ending) == SettledTransaction(r, e, e.stack[0].saved, ending)
  {
    var commits := Attempts(ending).0;
    if commits > 0 {
      CommitAttempt(r, e, true, commits, 0);
      var refused := EndOutermost(r, e).0;
      if commits > 1 && refused.stack != [] {
        CommitAttempt(r, refused, true, 1, 0);
      }
    }
  }

  /** One whole transaction on real handles, from autocommit back to autocommit. A BEGIN that is refused
      leaves the contents as they were. */
  method RunTransaction<C>(conn: Connection<C>, behavior: TransactionBehavior, p: Prog<C>, ending: Ending)
    returns (begun: bool)
    requires KnowsCommandWords(conn.rules.keywords) && conn.IsAutocommit()
    requires NoPanic(p) && NoIgnore(p)
    requires ending.b == Rollback || ending.b == DropBehavior.Commit
    modifies conn
    ensures conn.IsAutocommit()
    ensures begun == (behavior == Deferred || NextVerdict(old(conn.env)) == Proceed)
    ensures !begun ==> conn.env.contents == old(conn.env.contents)
    ensures var entry := old(conn.env.contents);
            var result := Simple(conn.rules.keywords, p, None, entry, entry);
            var body := Exec(conn.rules, old(conn.env), Begin(behavior)).0.(contents := result);
            begun ==>
              && conn.env == SettledTransaction(conn.rules, body, entry, ending)
              && (Aim(ending) == DropBehavior.Commit && CommitAllowed(conn.rules, body) ==> conn.env.contents == result)
              && (Aim(ending) == Rollback || conn.rules.violates(result) ==> conn.env.contents == entry)
  {
    var tx := Transaction.NewUnchecked(conn, behavior);
    if tx.None? {
      return false;
    }
    ghost var env := conn.env;
    NestedScopes(conn.rules, env, p, None, env.contents);
    TransactionAllOrNothing(conn.rules, old(conn.env), behavior, p, ending);
    RunBody(conn, null, p);
    tx.value.End(ending);
    return true;
  }
}

/**
 Statement splitting (src/lib.rs, src/inner_connection.rs): `execute_batch`, `Batch::next` and the
 recursive `prepare_with_flags` all walk through SQL text by what each prepare consumes, with a tail of
 0 standing for "finished". The loops are proved to agree with one run of the text, `Script`,
 and the recursive check with one split of it, `Segments`.
 */
module Batches {
  import opened Wrappers

  newtype byte = b: int | 0 <= b < 256

  type Text = seq<byte>

  const MAX_LENGTH: nat := 0x7FFF_FFFF
  const DEFAULT_FLAGS: nat := 0

  /** SQLite: `prepare` compiles the first statement of a text, or finds none in it, and says where it
      stopped, as an offset from the start unless the pointer is null; `step` runs a statement once and
      says whether there is a row. */
  datatype Engine<!D, !S, !E> = Engine(
    prepare: (D, Text, nat) -> Result<(Option<S>, Option<int>), E>,
    step: (D, S) -> (D, Result<bool, E>),
    tooBig: E)

  /** The tail arithmetic: anything that is not strictly inside the text means finished. */
  function TailOf(cTail: Option<int>, len: nat): (tail: nat)
    ensures tail == 0 || tail < len
  {
    match cTail
    case None => 0
    case Some(n) => if n <= 0 || n >= len then 0 else n
  }

  function Prepared<D, S, E>(eng: Engine<D, S, E>, d: D, sql: Text, flags: nat): (r: Result<(Option<S>, nat), E>)
    ensures r.Ok? ==> r.value.1 == 0 || r.value.1 < |sql|
  {
    if |sql| > MAX_LENGTH then Err(eng.tooBig)
    else
      match eng.prepare(d, sql, flags)
      case Err(e) => Err(e)
      case Ok((stmt, cTail)) => Ok((stmt, TailOf(cTail, |sql|)))
  }

  // ---------- The split ----------

  /** One piece of the text and what it compiled to. */
  datatype Segment<S, E> = Segment(text: Text, outcome: Result<Option<S>, E>)

  /** The pieces up to and including the first that does not compile. Only the first is compiled with
      the caller's flags. */
  function Segments<D, S, E>(eng: Engine<D, S, E>, d: D, sql: Text, flags: nat): seq<Segment<S, E>>
    decreases |sql|
  {
    match Prepared(eng, d, sql, flags)
    case Err(e) => [Segment(sql, Err(e))]
    case Ok((stmt, tail)) =>
      if tail == 0 then [Segment(sql, Ok(stmt))]
      else [Segment(sql[..tail], Ok(stmt))] + Segments(eng, d, sql[tail..], DEFAULT_FLAGS)
  }

  /** A text that does not compile is answered with the compiler's own error, whoever asks; and one that is
      longer than a C integer can say, with that it is too big, without asking the compiler. */
  lemma ErrorIsTheCompilers<D, S, E>(eng: Engine<D, S, E>, d: D, sql: Text, flags: nat)
    ensures var plain := if |sql| > 0x7FFF_FFFF then Err(eng.tooBig) else eng.prepare(d, sql, 0);
            sql != [] && plain.Err? ==>
              && Script(eng, d, sql) == Ran(d, [], Some(plain.error))
              && NextStatement(eng, d, sql) == Failed(plain.error)
              && Consumed(eng, d, sql) == [Segment([], Err(plain.error))]
    ensures var flagged := if |sql| > 0x7FFF_FFFF then Err(eng.tooBig) else eng.prepare(d, sql, flags);
            flagged.Err? ==>
              && Segments(eng, d, sql, flags) == [Segment(sql, Err(flagged.error))]
              && PrepareWithFlags(eng, d, sql, flags) == Err(FromSqlite(flagged.error))
  {
  }

  function Concat<S, E>(segs: seq<Segment<S, E>>): Text {
    if segs == [] then [] else segs[0].text + Concat(segs[1..])
  }

  /** The pieces are the text, none is lost and none is read twice; all but the last one compile. */
  lemma {:induction false} SegmentsCover<D, S, E>(eng: Engine<D, S, E>, d: D, sql: Text, flags: nat)
    ensures var segs := Segments(eng, d, sql, flags);
            && segs != [] && Concat(segs) == sql
            && (forall i :: 0 <= i < |segs| - 1 ==> segs[i].outcome.Ok? && segs[i].text != [])
    decreases |sql|
  {
    match Prepared(eng, d, sql, flags) {
      case Err(_) =>
      case Ok((stmt, tail)) =>
        if tail != 0 {
          SegmentsCover(eng, d, sql[tail..], DEFAULT_FLAGS);
          var segs := Segments(eng, d, sql, flags);
          assert segs[1..] == Segments(eng, d, sql[tail..], DEFAULT_FLAGS);
          assert sql == sql[..tail] + sql[tail..];
        }
    }
  }

  /** Each piece is what the compiler makes of the text from there on; the caller's flags are for the first. */
  lemma {:induction false} PiecesAreCompiled<D, S, E>(eng: Engine<D, S, E>, d: D, sql: Text, flags: nat, i: nat)
    requires |sql| <= 0x7FFF_FFFF && i < |Segments(eng, d, sql, flags)|
    ensures var segs := Segments(eng, d, sql, flags);
            var at := |Concat(segs[..i])|;
            && at <= |sql|
            && match eng.prepare(d, sql[at..], if i == 0 then flags else 0)
               case Err(e) => segs[i] == Segment(sql[at..], Err(e))
               case Ok((stmt, _)) => segs[i].outcome == Ok(stmt)
    decreases |sql|
  {
    var segs := Segments(eng, d, sql, flags);
    if i == 0 {
      assert segs[..0] == [] && sql[0..] == sql;
    } else {
      var tail := Prepared(eng, d, sql, flags).value.1;
      var rest := Segments(eng, d, sql[tail..], DEFAULT_FLAGS);
      assert segs == [segs[0]] + rest;
      PiecesAreCompiled(eng, d, sql[tail..], DEFAULT_FLAGS, i - 1);
      FirstOf(segs, rest, i);
      var at := |Concat(rest[..i - 1])|;
      assert |Concat(segs[..i])| == tail + at && sql[tail..][at..] == sql[tail + at..];
      assert segs[i] == rest[i - 1];
    }
  }

  lemma FirstOf<S, E>(segs: seq<Segment<S, E>>, rest: seq<Segment<S, E>>, i: nat)
    requires segs != [] && segs == [segs[0]] + rest && 0 < i <= |segs|
    ensures Concat(segs[..i]) == segs[0].text + Concat(rest[..i - 1])
  {
    assert segs[..i][1..] == rest[..i - 1];
  }

  /** So is each piece of a run, in the database the pieces before it left behind. */
  lemma {:induction false} PiecesAreCompiledInTurn<D, S, E>(eng: Engine<D, S, E>, d: D, sql: Text, i: nat)
    requires |sql| <= 0x7FFF_FFFF && i < |Consumed(eng, d, sql)|
    ensures var segs := Consumed(eng, d, sql);
            var at, now := |Concat(segs[..i])|, StepAll(eng, d, segs[..i]).db;
            && at < |sql|
            && match eng.prepare(now, sql[at..], 0)
               case Err(e) => segs[i] == Segment([], Err(e))
               case Ok((stmt, cTail)) =>
                 segs[i] == Segment(if cTail.Some? && 0 < cTail.value < |sql| - at then sql[at..][..cTail.value]
                                    else sql[at..], Ok(stmt))
    decreases |sql|
  {
    var segs := Consumed(eng, d, sql);
    var (stmt, tail) := if Prepared(eng, d, sql, DEFAULT_FLAGS).Ok? then Prepared(eng, d, sql, DEFAULT_FLAGS).value
                        else (None, 0);
    if i == 0 {
      assert segs[..0] == [] && sql[0..] == sql;
    } else {
      var d1 := if stmt.None? then d else eng.step(d, stmt.value).0;
      var rest := if tail == 0 then [] else sql[tail..];
      var later := Consumed(eng, d1, rest);
      assert segs == [segs[0]] + later;
      PiecesAreCompiledInTurn(eng, d1, rest, i - 1);
      FirstOf(segs, later, i);
      assert segs[..i][1..] == later[..i - 1];
      var at := |Concat(later[..i - 1])|;
      assert rest == sql[tail..] && sql[tail..][at..] == sql[tail + at..];
      assert segs[i] == later[i - 1];
    }
  }

  /** The first piece is exactly what the prepare consumed, so the encoding by tail 0 loses nothing, if
      and only if a non-empty text never has nothing consumed: then all of it would be given up. */
  lemma FirstPieceIsConsumed<D, S, E>(eng: Engine<D, S, E>, d: D, sql: Text, flags: nat, n: nat)
    requires n <= |sql| <= MAX_LENGTH
    requires eng.prepare(d, sql, flags).Ok? && eng.prepare(d, sql, flags).value.1 == Some(n)
    ensures Segments(eng, d, sql, flags)[0] == Segment(sql[..n], Ok(eng.prepare(d, sql, flags).value.0))
            <==> n > 0 || sql == []
  {
    assert sql[..|sql|] == sql;
  }

  // ---------- Running a whole text ----------

  /** The database at the end, the statements that were stepped, and the first error if there is one. */
  datatype Ran<D, S, E> = Ran(db: D, stepped: seq<S>, error: Option<E>)

  function Then<D, S, E>(s: S, rest: Ran<D, S, E>): Ran<D, S, E> {
    rest.(stepped := [s] + rest.stepped)
  }

  /** Each statement is compiled in the database its predecessors left behind. */
  function Script<D, S, E>(eng: Engine<D, S, E>, d: D, sql: Text): Ran<D, S, E>
    decreases |sql|
  {
    if sql == [] then Ran(d, [], None)
    else
      match Prepared(eng, d, sql, DEFAULT_FLAGS)
      case Err(e) => Ran(d, [], Some(e))
      case Ok((stmt, tail)) =>
        var rest := if tail == 0 then [] else sql[tail..];
        match stmt
        case None => Script(eng, d, rest)
        case Some(s) =>
          var (d1, r) := eng.step(d, s);
          if r.Err? then Ran(d1, [s], Some(r.error)) else Then(s, Script(eng, d1, rest))
  }

  /** Stepping the statements of a split one after the other. */
  function StepAll<D, S, E>(eng: Engine<D, S, E>, d: D, segs: seq<Segment<S, E>>): Ran<D, S, E> {
    if segs == [] then Ran(d, [], None)
    else
      match segs[0].outcome
      case Err(e) => Ran(d, [], Some(e))
      case Ok(None) => StepAll(eng, d, segs[1..])
      case Ok(Some(s)) =>
        var (d1, r) := eng.step(d, s);
        if r.Err? then Ran(d1, [s], Some(r.error)) else Then(s, StepAll(eng, d1, segs[1..]))
  }

  /** The pieces a run consumes. Each is compiled in the database its predecessors left behind; one that does
      not compile consumes nothing, and nothing comes after a statement that fails. */
  function Consumed<D, S, E>(eng: Engine<D, S, E>, d: D, sql: Text): seq<Segment<S, E>>
    decreases |sql|
  {
    if sql == [] then []
    else
      match Prepared(eng, d, sql, DEFAULT_FLAGS)
      case Err(e) => [Segment([], Err(e))]
      case Ok((stmt, tail)) =>
        var piece := Segment(if tail == 0 then sql else sql[..tail], Ok(stmt));
        var rest := if tail == 0 then [] else sql[tail..];
        match stmt
        case None => [piece] + Consumed(eng, d, rest)
        case Some(s) =>
          var (d1, r) := eng.step(d, s);
          [piece] + (if r.Err? then [] else Consumed(eng, d1, rest))
  }

  function Statements<S, E>(segs: seq<Segment<S, E>>): seq<S> {
    if segs == [] then []
    else
      (if segs[0].outcome.Ok? && segs[0].outcome.value.Some? then [segs[0].outcome.value.value] else [])
      + Statements(segs[1..])
  }

  /** Running a text is stepping the statements of the pieces it consumes, all of them, once and in order;
      whatever the statements do to how later ones compile. */
  lemma {:induction false} ScriptStepsConsumed<D, S, E>(eng: Engine<D, S, E>, d: D, sql: Text)
    ensures Script(eng, d, sql) == StepAll(eng, d, Consumed(eng, d, sql))
    ensures Script(eng, d, sql).stepped == Statements(Consumed(eng, d, sql))
    decreases |sql|
  {
    if sql != [] {
      match Prepared(eng, d, sql, DEFAULT_FLAGS) {
        case Err(_) =>
        case Ok((stmt, tail)) =>
          var rest := if tail == 0 then [] else sql[tail..];
          var d1 := if stmt.None? then d else eng.step(d, stmt.value).0;
          ScriptStepsConsumed(eng, d1, rest);
          var segs := Consumed(eng, d, sql);
          if stmt.None? || eng.step(d, stmt.value).1.Ok? {
            assert segs[1..] == Consumed(eng, d1, rest);
          } else {
            assert segs[1..] == [];
          }
      }
    }
  }

  /** The pieces are a prefix of the text, and all of it without an error. No piece but one that does not
      compile is empty, and that one is last and is the error. */
  ghost predicate Covers<S, E>(segs: seq<Segment<S, E>>, sql: Text, error: Option<E>) {
    && Concat(segs) <= sql
    && (error.None? ==> Concat(segs) == sql)
    && (forall i :: 0 <= i < |segs| ==> (segs[i].outcome.Ok? <==> segs[i].text != []))
    && (forall i :: 0 <= i < |segs| && segs[i].outcome.Err? ==>
          i == |segs| - 1 && error == Some(segs[i].outcome.error))
  }

  lemma CoversCons<S, E>(first: Segment<S, E>, later: seq<Segment<S, E>>, rest: Text, error: Option<E>)
    requires Covers(later, rest, error) && first.outcome.Ok? && first.text != []
    ensures Covers([first] + later, first.text + rest, error)
  {
    var segs := [first] + later;
    assert segs[1..] == later;
    assert rest == Concat(later) + rest[|Concat(later)|..];
    assert first.text + rest == Concat(segs) + rest[|Concat(later)|..];
  }

  lemma CoversLast<S, E>(last: Segment<S, E>, rest: Text, e: E)
    requires if last.outcome.Ok? then last.text != [] else last.text == [] && last.outcome.error == e
    ensures Covers([last], last.text + rest, Some(e))
  {
    assert [last][1..] == [];
    assert Concat([last]) == last.text + [];
  }

  /** No text is lost, none is read twice, and none is read past an error. */
  lemma {:induction false} ConsumedCover<D, S, E>(eng: Engine<D, S, E>, d: D, sql: Text)
    ensures Covers(Consumed(eng, d, sql), sql, Script(eng, d, sql).error)
    decreases |sql|
  {
    if sql != [] {
      match Prepared(eng, d, sql, DEFAULT_FLAGS) {
        case Err(e) =>
          CoversLast<S, E>(Segment([], Err(e)), sql, e);
          assert [] + sql == sql;
        case Ok((stmt, tail)) =>
          var piece: Segment<S, E> := Segment(if tail == 0 then sql else sql[..tail], Ok(stmt));
          var rest := if tail == 0 then [] else sql[tail..];
          assert piece.text + rest == sql;
          if stmt.None? {
            ConsumedCover(eng, d, rest);
            CoversCons(piece, Consumed(eng, d, rest), rest, Script(eng, d, rest).error);
          } else {
            var (d1, r) := eng.step(d, stmt.value);
            if r.Err? {
              CoversLast(piece, rest, r.error);
              assert [piece] + [] == [piece];
            } else {
              ConsumedCover(eng, d1, rest);
              CoversCons(piece, Consumed(eng, d1, rest), rest, Script(eng, d1, rest).error);
            }
          }
      }
    }
  }

  // ---------- The two loops ----------

  /** Running `text` from `d0` has stepped `done` and comes down to running `rest` from `d`. */
  ghost predicate Reaches<D, S, E>(eng: Engine<D, S, E>, d0: D, text: Text, done: seq<S>, d: D, rest: Text) {
    var ran := Script(eng, d, rest);
    Script(eng, d0, text) == ran.(stepped := done + ran.stepped)
  }

  /** One turn of the loop in `execute_batch`. */
  lemma PieceReaches<D, S, E>(eng: Engine<D, S, E>, d0: D, text: Text, done: seq<S>, d: D, sql: Text)
    requires Reaches(eng, d0, text, done, d, sql) && sql != []
    ensures match Prepared(eng, d, sql, DEFAULT_FLAGS)
            case Err(e) => Script(eng, d0, text) == Ran(d, done, Some(e))
            case Ok((None, tail)) => Reaches(eng, d0, text, done, d, if tail == 0 then [] else sql[tail..])
            case Ok((Some(s), tail)) =>
              var (d1, r) := eng.step(d, s);
              if r.Err? then Script(eng, d0, text) == Ran(d1, done + [s], Some(r.error))
              else Reaches(eng, d0, text, done + [s], d1, if tail == 0 then [] else sql[tail..])
  {
    assert done + [] == done;
    match Prepared(eng, d, sql, DEFAULT_FLAGS) {
      case Ok((Some(s), tail)) =>
        var ran := Script(eng, eng.step(d, s).0, if tail == 0 then [] else sql[tail..]);
        assert done + ([s] + ran.stepped) == done + [s] + ran.stepped;
      case _ =>
    }
  }

  lemma AddedLater<S>(before: seq<S>, done: seq<S>, added: seq<S>)
    ensures (before + done) + added == before + (done + added)
  {
  }

  class Connection<D, S, E> {
    const eng: Engine<D, S, E>
    var db: D
    var stepped: seq<S>

    constructor (eng: Engine<D, S, E>, db: D)
      ensures this.eng == eng && this.db == db && stepped == []
    {
      this.eng := eng;
      this.db := db;
      stepped := [];
    }

    method Prepare(sql: Text, flags: nat) returns (r: Result<(Option<S>, nat), E>)
      ensures r == Prepared(eng, db, sql, flags)
      ensures |sql| > 0x7FFF_FFFF ==> r == Err(eng.tooBig)
      ensures |sql| <= 0x7FFF_FFFF ==>
                match eng.prepare(db, sql, flags)
                case Err(e) => r == Err(e)
                case Ok((stmt, cTail)) =>
                  r == Ok((stmt, if cTail.Some? && 0 < cTail.value < |sql| then cTail.value else 0))
    {
      if |sql| > MAX_LENGTH {
        return Err(eng.tooBig);
      }
      match eng.prepare(db, sql, flags) {
        case Err(e) =>
          return Err(e);
        case Ok((stmt, cTail)) =>
          var tail := 0;
          if cTail.Some? {
            var n := cTail.value;
            tail := if n <= 0 || n >= |sql| then 0 else n;
          }
          return Ok((stmt, tail));
      }
    }

    method StepOnce(s: S) returns (r: Result<bool, E>)
      modifies this
      ensures (db, r) == eng.step(old(db), s) && stepped == old(stepped) + [s]
    {
      var after := eng.step(db, s);
      db, r := after.0, after.1;
      stepped := stepped + [s];
    }

    method ExecuteBatch(text: Text) returns (r: Result<(), E>)
      modifies this
      ensures var ran := Script(eng, old(db), text);
              && db == ran.db && stepped == old(stepped) + ran.stepped
              && r == if ran.error.Some? then Err(ran.error.value) else Ok(())
    {
      var sql := text;
      ghost var done: seq<S> := [];
      while sql != []
        invariant stepped == old(stepped) + done
        invariant Reaches(eng, old(db), text, done, db, sql)
        decreases |sql|
      {
        PieceReaches(eng, old(db), text, done, db, sql);
        var p := Prepare(sql, DEFAULT_FLAGS);
        if p.Err? {
          return Err(p.error);
        }
        var (stmt, tail) := p.value;
        if stmt.Some? {
          var row := StepOnce(stmt.value);
          AddedLater(old(stepped), done, [stmt.value]);
          done := done + [stmt.value];
          if row.Err? {
            return Err(row.error);
          }
        }
        if tail == 0 || tail >= |sql| {
          assert Reaches(eng, old(db), text, done, db, []);
          break;
        }
        sql := sql[tail..];
      }
      assert Reaches(eng, old(db), text, done, db, []);
      return Ok(());
    }
  }

  /** What `Batch::next` finds in the remaining text: nothing, an error, or a statement and the text
      after it. */
  datatype Found<S, E> = Finished | Failed(error: E) | Got(stmt: S, rest: Text)

  function NextStatement<D, S, E>(eng: Engine<D, S, E>, d: D, sql: Text): (f: Found<S, E>)
    ensures f.Got? ==> |f.rest| < |sql|
    decreases |sql|
  {
    if sql == [] then Finished
    else
      match Prepared(eng, d, sql, DEFAULT_FLAGS)
      case Err(e) => Failed(e)
      case Ok((stmt, tail)) =>
        var rest := if tail == 0 then [] else sql[tail..];
        if stmt.Some? then Got(stmt.value, rest) else NextStatement(eng, d, rest)
  }

  class Batch<D, S, E> {
    const conn: Connection<D, S, E>
    const sql: Text
    var tail: nat

    constructor (conn: Connection<D, S, E>, sql: Text)
      ensures this.conn == conn && this.sql == sql && tail == 0
    {
      this.conn := conn;
      this.sql := sql;
      tail := 0;
    }

    function Remaining(): Text
      reads this
    {
      if tail < |sql| then sql[tail..] else []
    }

    /** Once finished it stays finished. */
    method Next() returns (r: Result<Option<S>, E>)
      requires tail <= |sql|
      modifies this
      ensures tail <= |sql|
      ensures var found := NextStatement(conn.eng, conn.db, old(Remaining()));
              match found
              case Finished => r == Ok(None) && Remaining() == []
              case Failed(e) =>
                && r == Err(e) && Remaining() != []
                && Prepared(conn.eng, conn.db, Remaining(), DEFAULT_FLAGS) == Err(e)
                && NextStatement(conn.eng, conn.db, Remaining()) == found
              case Got(s, rest) => r == Ok(Some(s)) && Remaining() == rest
      ensures old(Remaining()) == [] ==> r == Ok(None) && tail == old(tail)
    {
      while tail < |sql|
        invariant tail <= |sql|
        invariant NextStatement(conn.eng, conn.db, Remaining()) == NextStatement(conn.eng, conn.db, old(Remaining()))
        invariant old(Remaining()) == [] ==> tail == old(tail)
      {
        var here := sql[tail..];
        var p := conn.Prepare(here, DEFAULT_FLAGS);
        if p.Err? {
          return Err(p.error);
        }
        var (stmt, consumed) := p.value;
        if consumed == 0 {
          tail := |sql|;
        } else {
          tail := tail + consumed;
          assert here[consumed..] == sql[tail..];
        }
        if stmt.None? {
          continue;
        }
        return Ok(Some(stmt.value));
      }
      return Ok(None);
    }
  }

  /** The statement `next` hands out first is the one the whole run steps first. */
  lemma {:induction false} NextIsFirst<D, S, E>(eng: Engine<D, S, E>, d: D, sql: Text)
    ensures Script(eng, d, sql) ==
            match NextStatement(eng, d, sql)
            case Finished => Ran(d, [], None)
            case Failed(e) => Ran(d, [], Some(e))
            case Got(s, rest) =>
              var (d1, r) := eng.step(d, s);
              if r.Err? then Ran(d1, [s], Some(r.error)) else Then(s, Script(eng, d1, rest))
    decreases |sql|
  {
    if sql != [] {
      match Prepared(eng, d, sql, DEFAULT_FLAGS) {
        case Err(_) =>
        case Ok((stmt, tail)) =>
          if stmt.None? {
            NextIsFirst(eng, d, if tail == 0 then [] else sql[tail..]);
          }
      }
    }
  }

  lemma NextReaches<D, S, E>(eng: Engine<D, S, E>, d0: D, text: Text, done: seq<S>, d: D, rest: Text)
    requires Reaches(eng, d0, text, done, d, rest)
    ensures match NextStatement(eng, d, rest)
            case Finished => Script(eng, d0, text) == Ran(d, done, None)
            case Failed(e) => Script(eng, d0, text) == Ran(d, done, Some(e))
            case Got(s, rest') =>
              var (d1, r) := eng.step(d, s);
              if r.Err? then Script(eng, d0, text) == Ran(d1, done + [s], Some(r.error))
              else Reaches(eng, d0, text, done + [s], d1, rest')
  {
    NextIsFirst(eng, d, rest);
    assert done + [] == done;
    match NextStatement(eng, d, rest) {
      case Got(s, rest') =>
        var (d1, _) := eng.step(d, s);
        var ran := Script(eng, d1, rest');
        assert done + ([s] + ran.stepped) == done + [s] + ran.stepped;
      case _ =>
    }
  }

  /** One turn of a caller that drains a `Batch`: the next statement, if there is one, is stepped once. */
  ghost predicate Turn<D, S, E>(eng: Engine<D, S, E>, d: D, sql: Text, d1: D, added: seq<S>, rest: Text, r: Result<bool, E>) {
    match NextStatement(eng, d, sql)
    case Finished => r == Ok(false) && d1 == d && added == []
    case Failed(e) => r == Err(e) && d1 == d && added == []
    case Got(s, later) =>
      && rest == later && d1 == eng.step(d, s).0 && added == [s]
      && r == if eng.step(d, s).1.Err? then Err(eng.step(d, s).1.error) else Ok(true)
  }

  lemma TurnReaches<D, S, E>(eng: Engine<D, S, E>, d0: D, text: Text, done: seq<S>, d: D, sql: Text,
                             d1: D, added: seq<S>, rest: Text, r: Result<bool, E>)
    requires Reaches(eng, d0, text, done, d, sql) && Turn(eng, d, sql, d1, added, rest, r)
    ensures if r == Ok(true) then Reaches(eng, d0, text, done + added, d1, rest) && |rest| < |sql|
            else Script(eng, d0, text) == Ran(d1, done + added, if r.Err? then Some(r.error) else None)
  {
    NextReaches(eng, d0, text, done, d, sql);
    assert done + [] == done;
  }

  method DrainOne<D, S, E>(batch: Batch<D, S, E>) returns (r: Result<bool, E>, ghost added: seq<S>)
    requires batch.tail <= |batch.sql|
    modifies batch, batch.conn
    ensures batch.tail <= |batch.sql|
    ensures batch.conn.stepped == old(batch.conn.stepped) + added
    ensures Turn(batch.conn.eng, old(batch.conn.db), old(batch.Remaining()), batch.conn.db, added, batch.Remaining(), r)
  {
    added := [];
    var next := batch.Next();
    if next.Err? {
      return Err(next.error), [];
    }
    if next.value.None? {
      return Ok(false), [];
    }
    var row := batch.conn.StepOnce(next.value.value);
    return if row.Err? then Err(row.error) else Ok(true), [next.value.value];
  }

  /** A caller that drains a `Batch`, stepping each statement once, does what `ExecuteBatch` does: the
      same statements in the same order to the same database or error. */
  method DrainBatch<D, S, E>(conn: Connection<D, S, E>, text: Text) returns (r: Result<(), E>)
    modifies conn
    ensures var ran := Script(conn.eng, old(conn.db), text);
            && conn.db == ran.db && conn.stepped == old(conn.stepped) + ran.stepped
            && r == if ran.error.Some? then Err(ran.error.value) else Ok(())
  {
    var batch := new Batch(conn, text);
    assert batch.Remaining() == text;
    ghost var done: seq<S> := [];
    var more := Ok(true);
    while more == Ok(true)
      invariant fresh(batch) && batch.conn == conn && batch.tail <= |batch.sql|
      invariant conn.stepped == old(conn.stepped) + done
      invariant if more == Ok(true) then Reaches(conn.eng, old(conn.db), text, done, conn.db, batch.Remaining())
                else Script(conn.eng, old(conn.db), text) ==
                     Ran(conn.db, done, if more.Err? then Some(more.error) else None)
      decreases more == Ok(true), |batch.Remaining()|
    {
      ghost var d, sql := conn.db, batch.Remaining();
      ghost var added;
      more, added := DrainOne(batch);
      TurnReaches(conn.eng, old(conn.db), text, done, d, sql, conn.db, added, batch.Remaining(), more);
      AddedLater(old(conn.stepped), done, added);
      done := done + added;
    }
    return if more.Err? then Err(more.error) else Ok(());
  }

  // ---------- The recursive check ----------

  datatype PrepareError<E> = FromSqlite(e: E) | MultipleStatement

  /** `prepare_with_flags`: the rest of the text must compile, recursively, and to nothing. */
  function PrepareWithFlags<D, S, E>(eng: Engine<D, S, E>, d: D, sql: Text, flags: nat)
    : Result<Option<S>, PrepareError<E>>
    decreases |sql|
  {
    match Prepared(eng, d, sql, flags)
    case Err(e) => Err(FromSqlite(e))
    case Ok((stmt, tail)) =>
      if tail == 0 then Ok(stmt)
      else
        match PrepareWithFlags(eng, d, sql[tail..], DEFAULT_FLAGS)
        case Err(e) => Err(e)
        case Ok(Some(_)) => Err(MultipleStatement)
        case Ok(None) => Ok(stmt)
  }

  predicate HasStatement<S, E>(segs: seq<Segment<S, E>>) {
    exists i :: 0 <= i < |segs| && segs[i].outcome.Ok? && segs[i].outcome.value.Some?
  }

  /** Exactly: the compile error of the split if there is one; otherwise `MultipleStatement` if and only
      if a piece after the first is a real statement; otherwise what the first piece compiled to. */
  lemma {:induction false} PrepareMeaning<D, S, E>(eng: Engine<D, S, E>, d: D, sql: Text, flags: nat)
    ensures var segs := Segments(eng, d, sql, flags);
            && segs != []
            && PrepareWithFlags(eng, d, sql, flags) ==
               if segs[|segs| - 1].outcome.Err? then Err(FromSqlite(segs[|segs| - 1].outcome.error))
               else if HasStatement(segs[1..]) then Err(MultipleStatement)
               else Ok(segs[0].outcome.value)
    decreases |sql|
  {
    SegmentsCover(eng, d, sql, flags);
    match Prepared(eng, d, sql, flags) {
      case Err(_) =>
      case Ok((stmt, tail)) =>
        var segs := Segments(eng, d, sql, flags);
        if tail == 0 {
          assert segs[1..] == [];
        } else {
          var rest := Segments(eng, d, sql[tail..], DEFAULT_FLAGS);
          PrepareMeaning(eng, d, sql[tail..], DEFAULT_FLAGS);
          SegmentsCover(eng, d, sql[tail..], DEFAULT_FLAGS);
          assert segs[1..] == rest && segs[|segs| - 1] == rest[|rest| - 1];
          assert rest == [rest[0]] + rest[1..];
          if rest[|rest| - 1].outcome.Ok? {
            StatementsSplit(rest);
          }
        }
    }
  }

  lemma StatementsSplit<S, E>(segs: seq<Segment<S, E>>)
    requires segs != [] && segs[0].outcome.Ok?
    ensures HasStatement(segs) <==> segs[0].outcome.value.Some? || HasStatement(segs[1..])
  {
    if HasStatement(segs) && segs[0].outcome.value.None? {
      var i :| 0 <= i < |segs| && segs[i].outcome.Ok? && segs[i].outcome.value.Some?;
      assert segs[1..][i - 1] == segs[i];
    }
    if HasStatement(segs[1..]) {
      var i :| 0 <= i < |segs[1..]| && segs[1..][i].outcome.Ok? && segs[1..][i].outcome.value.Some?;
      assert segs[i + 1] == segs[1..][i];
    }
  }
}

/**
 The SQL printer behind every savepoint command (src/pragma.rs, `cmd` in src/transaction.rs), and
 the part of SQLite's tokenizer and grammar that reads its output back. The printer is a class over
 its buffer; the reader is a function that knows nothing about the printer.
 */
module SqlText {
  import opened Wrappers

  const NUL: char := '\0'

  // ---------- Character classes ----------

  predicate IsIdentifierStart(c: char) {
    'A' <= c <= 'Z' || c == '_' || 'a' <= c <= 'z' || c > '\U{7F}'
  }

  predicate IsIdentifierContinue(c: char) {
    c == '$' || '0' <= c <= '9' || 'A' <= c <= 'Z' || c == '_' || 'a' <= c <= 'z' || c > '\U{7F}'
  }

  /** Vacuously true of the empty string, as in the source. */
  predicate IsIdentifier(s: string) {
    forall i :: 0 <= i < |s| ==> if i == 0 then IsIdentifierStart(s[i]) else IsIdentifierContinue(s[i])
  }

  // ---------- Names and keywords ----------

  /** ASCII case folding, the only folding SQLite applies to names and keywords. */
  function FoldChar(c: char): char {
    if 'A' <= c <= 'Z' then c - 'A' + 'a' else c
  }

  function Fold(s: string): string {
    seq(|s|, i requires 0 <= i < |s| => FoldChar(s[i]))
  }

  predicate SameName(a: string, b: string) {
    Fold(a) == Fold(b)
  }

  /** `keywords` holds the folded words of `sqlite3_keyword_check`. */
  predicate IsKeyword(keywords: set<string>, s: string) {
    Fold(s) in keywords
  }

  ghost predicate KnowsCommandWords(keywords: set<string>) {
    {"savepoint", "release", "rollback", "to"} <= keywords
  }

  // ---------- What the printer writes ----------

  function Doubled(s: string, quote: char): string {
    if s == [] then []
    else (if s[0] == quote then [quote, quote] else [s[0]]) + Doubled(s[1..], quote)
  }

  function Wrapped(s: string, quote: char): string {
    [quote] + Doubled(s, quote) + [quote]
  }

  function IdentText(name: string): string {
    if IsIdentifier(name) then name else Wrapped(name, '"')
  }

  function CommandText(verb: string, to: bool, name: string): string {
    verb + " " + (if to then "TO" + " " else "") + IdentText(name)
  }

  lemma CommandParts(verb: string, name: string)
    ensures CommandText(verb, false, name) == [] + verb + " " + IdentText(name)
    ensures CommandText(verb, true, name) == [] + verb + " " + "TO" + " " + IdentText(name)
  {
    var word, ident := "TO", IdentText(name);
    assert [] + verb + " " == verb + " " == verb + " " + "";
    assert verb + " " + (word + " ") == verb + " " + word + " ";
  }

  // ---------- The printer ----------

  class Sql {
    var buf: string

    constructor ()
      ensures buf == []
    {
      buf := [];
    }

    method PushKeyword(keywords: set<string>, keyword: string) returns (ok: bool)
      modifies this
      ensures ok <==> keyword != [] && IsKeyword(keywords, keyword)
      ensures buf == if ok then old(buf) + keyword else old(buf)
    {
      ok := keyword != [] && IsKeyword(keywords, keyword);
      if ok {
        buf := buf + keyword;
      }
    }

    method PushSpace()
      modifies this
      ensures buf == old(buf) + " "
    {
      buf := buf + [' '];
    }

    method PushIdentifier(s: string)
      modifies this
      ensures buf == old(buf) + IdentText(s)
    {
      var plain := ScanIdentifier(s);
      if plain {
        buf := buf + s;
      } else {
        WrapAndEscape(s, '"');
      }
    }

    method PushStringLiteral(s: string)
      modifies this
      ensures buf == old(buf) + Wrapped(s, '\'')
    {
      WrapAndEscape(s, '\'');
    }

    method WrapAndEscape(s: string, quote: char)
      modifies this
      ensures buf == old(buf) + Wrapped(s, quote)
    {
      buf := buf + [quote];
      var i := 0;
      while i < |s|
        invariant 0 <= i <= |s|
        invariant buf + Doubled(s[i..], quote) == old(buf) + [quote] + Doubled(s, quote)
      {
        ghost var before := buf;
        if s[i] == quote {
          buf := buf + [s[i]];
        }
        buf := buf + [s[i]];
        assert s[i..][1..] == s[i + 1..];
        assert buf + Doubled(s[i + 1..], quote) == before + Doubled(s[i..], quote);
        i := i + 1;
      }
      assert s[i..] == [];
      assert buf == old(buf) + [quote] + Doubled(s, quote);
      buf := buf + [quote];
    }
  }

  method ScanIdentifier(s: string) returns (plain: bool)
    ensures plain == IsIdentifier(s)
  {
    var i := 0;
    while i < |s|
      invariant 0 <= i <= |s|
      invariant IsIdentifier(s[..i])
    {
      if i == 0 {
        if !IsIdentifierStart(s[i]) {
          return false;
        }
      } else if !IsIdentifierContinue(s[i]) {
        return false;
      }
      i := i + 1;
    }
    assert s[..i] == s;
    return true;
  }

  method Cmd(keywords: set<string>, verb: string, to: bool, name: string) returns (r: Option<string>)
    ensures r == if verb != [] && IsKeyword(keywords, verb) && (to ==> IsKeyword(keywords, "TO"))
                 then Some(CommandText(verb, to, name)) else None
  {
    CommandParts(verb, name);
    var sql := new Sql();
    var ok := sql.PushKeyword(keywords, verb);
    if !ok {
      return None;
    }
    sql.PushSpace();
    if to {
      ok := sql.PushKeyword(keywords, "TO");
      if !ok {
        return None;
      }
      sql.PushSpace();
    }
    sql.PushIdentifier(name);
    return Some(sql.buf);
  }

  // ---------- How SQLite reads text ----------

  /** The text of a quoted token and what follows it; `s` starts just after the opening quote. */
  function Unquote(s: string, quote: char): Option<(string, string)> {
    if s == [] then None
    else if s[0] != quote then Keep(s[0], Unquote(s[1..], quote))
    else if |s| > 1 && s[1] == quote then Keep(quote, Unquote(s[2..], quote))
    else Some(("", s[1..]))
  }

  function Keep(c: char, tail: Option<(string, string)>): Option<(string, string)> {
    match tail
    case None => None
    case Some((text, rest)) => Some(([c] + text, rest))
  }

  /** SQLite's identifier characters, by code point: `$`, the digits, the letters, `_` and everything beyond
      ASCII. A word begins with none of the first two kinds. */
  predicate IsWordChar(c: char) {
    var n := c as int;
    n == 36 || 48 <= n <= 57 || 65 <= n <= 90 || n == 95 || 97 <= n <= 122 || 128 <= n
  }

  predicate IsWordStart(c: char) {
    IsWordChar(c) && c as int != 36 && !(48 <= c as int <= 57)
  }

  datatype Token = Word(text: string) | Quoted(text: string)

  predicate IsSpace(c: char) {
    c == ' ' || c == '\t' || c == '\n' || c == '\U{0C}' || c == '\r'
  }

  function WordLength(s: string): (n: nat)
    ensures n <= |s|
  {
    if s == [] || !IsWordChar(s[0]) then 0 else 1 + WordLength(s[1..])
  }

  function Prepend(t: Token, rest: Option<seq<Token>>): Option<seq<Token>> {
    match rest
    case None => None
    case Some(ts) => Some([t] + ts)
  }

  /** Words and quoted identifiers separated by blanks; any other token is rejected. */
  function Lex(s: string): Option<seq<Token>>
    decreases |s|
  {
    if s == [] then Some([])
    else if IsSpace(s[0]) then Lex(s[1..])
    else if IsWordStart(s[0]) then
      var n := 1 + WordLength(s[1..]);
      Prepend(Word(s[..n]), Lex(s[n..]))
    else if s[0] == '"' then
      UnquoteShrinks(s[1..], '"');
      match Unquote(s[1..], '"')
      case None => None
      case Some((text, rest)) => Prepend(Quoted(text), Lex(rest))
    else None
  }

  lemma UnquoteShrinks(s: string, quote: char)
    ensures Unquote(s, quote).Some? ==> |Unquote(s, quote).value.1| < |s|
  {
  }

  /** SQLite stops reading at the first NUL. */
  function UpToNul(s: string): string {
    if s == [] || s[0] == NUL then [] else [s[0]] + UpToNul(s[1..])
  }

  datatype TransactionBehavior = Deferred | Immediate | Exclusive

  datatype Command =
    | Begin(behavior: TransactionBehavior)
    | CommitAll
    | RollbackAll
    | SetSavepoint(name: string)
    | Release(name: string)
    | RollbackTo(name: string)

  function NameOf(keywords: set<string>, t: Token): Option<string> {
    match t
    case Word(w) => if IsKeyword(keywords, w) then None else Some(w)
    case Quoted(w) => Some(w)
  }

  predicate IsWord(t: Token, folded: string) {
    t.Word? && Fold(t.text) == folded
  }

  /** The transaction-control statements in the form rusqlite issues them. */
  function ParseTokens(keywords: set<string>, ts: seq<Token>): Option<Command> {
    if |ts| == 1 && IsWord(ts[0], "commit") then Some(CommitAll)
    else if |ts| == 1 && IsWord(ts[0], "rollback") then Some(RollbackAll)
    else if |ts| == 2 && IsWord(ts[0], "begin") then
      if IsWord(ts[1], "deferred") then Some(Begin(Deferred))
      else if IsWord(ts[1], "immediate") then Some(Begin(Immediate))
      else if IsWord(ts[1], "exclusive") then Some(Begin(Exclusive))
      else None
    else if |ts| == 2 && IsWord(ts[0], "savepoint") then
      Named(NameOf(keywords, ts[1]), n => SetSavepoint(n))
    else if |ts| == 2 && IsWord(ts[0], "release") then
      Named(NameOf(keywords, ts[1]), n => Release(n))
    else if |ts| == 3 && IsWord(ts[0], "rollback") && IsWord(ts[1], "to") then
      Named(NameOf(keywords, ts[2]), n => RollbackTo(n))
    else None
  }

  function Named(name: Option<string>, make: string -> Command): Option<Command> {
    if name.Some? then Some(make(name.value)) else None
  }

  function ParseCommand(keywords: set<string>, sql: string): Option<Command> {
    match Lex(UpToNul(sql))
    case None => None
    case Some(ts) => ParseTokens(keywords, ts)
  }

  /** The names a savepoint can have: printed and read back, they come out unchanged. */
  predicate AcceptedName(keywords: set<string>, name: string) {
    name != [] && NUL !in name && !(IsIdentifier(name) && IsKeyword(keywords, name))
  }

  // ---------- Quoting ----------

  /** Undoubling recovers every string and stops at the closing quote, exactly when the text that
      follows does not itself begin with the quote. */
  lemma {:induction false} QuotingRoundTrip(s: string, quote: char, rest: string)
    ensures Unquote(Doubled(s, quote) + [quote] + rest, quote) == Some((s, rest))
            <==> (rest == [] || rest[0] != quote)
  {
    if rest != [] && rest[0] == quote {
      UnquoteRunsOn(s, quote, rest);
    } else {
      UnquoteStops(s, quote, rest);
    }
  }

  lemma {:induction false} UnquoteStops(s: string, quote: char, rest: string)
    requires rest == [] || rest[0] != quote
    ensures Unquote(Doubled(s, quote) + [quote] + rest, quote) == Some((s, rest))
  {
    var text := Doubled(s, quote) + [quote] + rest;
    if s == [] {
      assert text == [quote] + rest;
    } else {
      UnquoteStops(s[1..], quote, rest);
      var tail := Doubled(s[1..], quote) + [quote] + rest;
      if s[0] == quote {
        assert text == [quote, quote] + tail;
        assert text[2..] == tail;
      } else {
        assert text == [s[0]] + tail;
        assert text[1..] == tail;
      }
      assert [s[0]] + s[1..] == s;
    }
  }

  lemma {:induction false} UnquoteRunsOn(s: string, quote: char, rest: string)
    requires rest != [] && rest[0] == quote
    ensures var r := Unquote(Doubled(s, quote) + [quote] + rest, quote);
            r.Some? ==> |r.value.0| > |s|
  {
    var text := Doubled(s, quote) + [quote] + rest;
    if s == [] {
      assert text == [quote] + rest;
    } else {
      UnquoteRunsOn(s[1..], quote, rest);
      var tail := Doubled(s[1..], quote) + [quote] + rest;
      if s[0] == quote {
        assert text == [quote, quote] + tail;
        assert text[2..] == tail;
      } else {
        assert text == [s[0]] + tail;
        assert text[1..] == tail;
      }
    }
  }

  lemma {:induction false} UnquoteUnterminated(s: string, quote: char)
    ensures Unquote(Doubled(s, quote), quote) == None
  {
    if s != [] {
      UnquoteUnterminated(s[1..], quote);
      var text, tail := Doubled(s, quote), Doubled(s[1..], quote);
      if s[0] == quote {
        assert text[2..] == tail;
      } else {
        assert text[1..] == tail;
      }
    }
  }

  lemma QuotedIsNotBare(s: string)
    ensures !IsIdentifier(Wrapped(s, '"'))
  {
    assert Wrapped(s, '"')[0] == '"';
  }

  /** Two names are printed alike only if they are the same name: no bare form equals a quoted one. */
  lemma IdentTextInjective(a: string, b: string)
    requires IdentText(a) == IdentText(b)
    ensures a == b
  {
    if IsIdentifier(a) && !IsIdentifier(b) {
      QuotedIsNotBare(b);
    } else if IsIdentifier(b) && !IsIdentifier(a) {
      QuotedIsNotBare(a);
    } else if !IsIdentifier(a) {
      UnquoteStops(a, '"', []);
      UnquoteStops(b, '"', []);
      assert Wrapped(a, '"')[1..] == Doubled(a, '"') + ['"'] + [];
      assert Wrapped(b, '"')[1..] == Doubled(b, '"') + ['"'] + [];
    }
  }

  // ---------- Lexing what was printed ----------

  lemma {:induction false} UpToNulClean(s: string, rest: string)
    requires NUL !in s
    ensures UpToNul(s + rest) == s + UpToNul(rest)
  {
    if s == [] {
      assert s + rest == rest;
    } else {
      assert (s + rest)[1..] == s[1..] + rest;
      UpToNulClean(s[1..], rest);
    }
  }

  lemma {:induction false} DoubledHasNul(s: string, quote: char)
    requires quote != NUL
    ensures NUL in Doubled(s, quote) <==> NUL in s
  {
    if s != [] {
      DoubledHasNul(s[1..], quote);
      assert s == [s[0]] + s[1..];
    }
  }

  lemma {:induction false} DoubledUpToNul(s: string, quote: char, rest: string)
    requires quote != NUL && NUL in s
    ensures UpToNul(Doubled(s, quote) + rest) == Doubled(UpToNul(s), quote)
  {
    var text := Doubled(s, quote) + rest;
    if s[0] != NUL {
      assert s == [s[0]] + s[1..];
      DoubledUpToNul(s[1..], quote, rest);
      var tail := Doubled(s[1..], quote) + rest;
      var cut := UpToNul(s);
      assert cut[1..] == UpToNul(s[1..]);
      if s[0] == quote {
        assert text == [quote, quote] + tail;
        assert text[1..] == [quote] + tail;
        assert text[1..][1..] == tail;
      } else {
        assert text == [s[0]] + tail;
        assert text[1..] == tail;
      }
    }
  }

  lemma {:induction false} WordLengthOf(w: string, rest: string)
    requires forall i :: 0 <= i < |w| ==> IsIdentifierContinue(w[i])
    requires rest == [] || !IsIdentifierContinue(rest[0])
    ensures WordLength(w + rest) == |w|
  {
    if w == [] {
      assert w + rest == rest;
    } else {
      assert (w + rest)[1..] == w[1..] + rest;
      WordLengthOf(w[1..], rest);
    }
  }

  lemma LexWord(w: string, rest: string)
    requires w != [] && IsIdentifier(w)
    requires rest == [] || !IsIdentifierContinue(rest[0])
    ensures Lex(w + rest) == Prepend(Word(w), Lex(rest))
  {
    var s := w + rest;
    assert s[0] == w[0];
    assert s[1..] == w[1..] + rest;
    WordLengthOf(w[1..], rest);
    assert s[..|w|] == w && s[|w|..] == rest;
  }

  lemma LexWordThenSpace(w: string, rest: string)
    requires w != [] && IsIdentifier(w)
    ensures Lex(w + " " + rest) == Prepend(Word(w), Lex(rest))
  {
    var tail := " " + rest;
    assert w + " " + rest == w + tail;
    LexWord(w, tail);
    assert tail[1..] == rest;
  }

  /** What SQLite sees of a printed name. */
  lemma LexIdentText(name: string)
    ensures Lex(UpToNul(IdentText(name))) == NameTokens(name)
  {
    if name == [] {
    } else if IsIdentifier(name) {
      UpToNulClean(name, []);
      assert name + [] == name;
      LexWord(name, []);
      assert [Word(name)] + [] == [Word(name)];
    } else if NUL in name {
      var inner := Doubled(name, '"');
      assert Wrapped(name, '"') == ['"'] + (inner + ['"']);
      UpToNulClean(['"'], inner + ['"']);
      DoubledUpToNul(name, '"', ['"']);
      UnquoteUnterminated(UpToNul(name), '"');
      var seen := ['"'] + Doubled(UpToNul(name), '"');
      assert seen[1..] == Doubled(UpToNul(name), '"');
    } else {
      LexQuoted(name);
    }
  }

  lemma LexQuoted(name: string)
    requires NUL !in name
    ensures UpToNul(Wrapped(name, '"')) == Wrapped(name, '"')
    ensures Lex(Wrapped(name, '"')) == Some([Quoted(name)])
  {
    var text := Wrapped(name, '"');
    DoubledHasNul(name, '"');
    UpToNulClean(text, []);
    assert text + [] == text;
    UnquoteStops(name, '"', []);
    assert text[1..] == Doubled(name, '"') + ['"'] + [];
    assert Unquote(text[1..], '"') == Some((name, []));
    assert [Quoted(name)] + [] == [Quoted(name)];
  }

  lemma {:induction false} UnquoteLengths(s: string, quote: char)
    ensures Unquote(s, quote).Some? ==> |Unquote(s, quote).value.0| + |Unquote(s, quote).value.1| < |s|
    decreases |s|
  {
    if s != [] && s[0] != quote {
      UnquoteLengths(s[1..], quote);
    } else if |s| > 1 && s[1] == quote {
      UnquoteLengths(s[2..], quote);
    }
  }

  lemma {:induction false} TokensFit(s: string)
    ensures Lex(s).Some? ==> forall t :: t in Lex(s).value ==> |t.text| <= |s|
    decreases |s|
  {
    if s == [] {
    } else if IsSpace(s[0]) {
      TokensFit(s[1..]);
    } else if IsWordStart(s[0]) {
      TokensFit(s[1 + WordLength(s[1..])..]);
    } else if s[0] == '"' {
      UnquoteLengths(s[1..], '"');
      if Unquote(s[1..], '"').Some? {
        TokensFit(Unquote(s[1..], '"').value.1);
      }
    }
  }

  lemma {:induction false} WordLengthStops(s: string)
    ensures forall i :: 0 <= i < WordLength(s) ==> IsWordChar(s[i])
    ensures WordLength(s) < |s| ==> !IsWordChar(s[WordLength(s)])
  {
    if s != [] && IsWordChar(s[0]) {
      WordLengthStops(s[1..]);
    }
  }

  /** The printer leaves a name bare exactly if SQLite reads it, as it stands, as that one word: it quotes
      whatever it must and nothing it need not. */
  lemma BareIffOneWord(name: string)
    requires name != []
    ensures IdentText(name) == name <==> Lex(name) == Some([Word(name)])
    ensures IsIdentifier(name) <==> Lex(name) == Some([Word(name)])
  {
    if IsIdentifier(name) {
      LexWord(name, []);
      assert name + [] == name;
      assert [Word(name)] + [] == [Word(name)];
    } else {
      assert |Wrapped(name, '"')| > |name| by { DoubledGrows(name, '"'); }
      if Lex(name) == Some([Word(name)]) {
        assert Word(name) in Lex(name).value;
        if IsSpace(name[0]) {
          TokensFit(name[1..]);
        } else {
          assert IsWordStart(name[0]);
          WordLengthStops(name[1..]);
          assert Word(name) == Lex(name).value[0];
          assert |name| == 1 + WordLength(name[1..]);
          forall i | 0 < i < |name| ensures IsIdentifierContinue(name[i]) {
            assert name[1..][i - 1] == name[i];
          }
        }
      }
    }
  }

  lemma {:induction false} DoubledGrows(s: string, quote: char)
    ensures |s| <= |Doubled(s, quote)|
  {
    if s != [] {
      DoubledGrows(s[1..], quote);
    }
  }

  /** A word and a blank in front of any text add that one token. */
  lemma LexHead(w: string, tail: string)
    requires w != [] && IsIdentifier(w)
    ensures Lex(UpToNul(w + " " + tail)) == Prepend(Word(w), Lex(UpToNul(tail)))
  {
    UpToNulClean(w + " ", tail);
    LexWordThenSpace(w, UpToNul(tail));
  }

  /** The tokens SQLite reads from a printed name: none, an unreadable text, or one. */
  function NameTokens(name: string): Option<seq<Token>> {
    if name == [] then Some([])
    else if NUL in name then None
    else Some([if IsIdentifier(name) then Word(name) else Quoted(name)])
  }

  lemma LexNamed(verb: string, to: string, name: string)
    requires verb != [] && IsIdentifier(verb) && to != [] && IsIdentifier(to)
    ensures Lex(UpToNul(verb + " " + IdentText(name))) == Prepend(Word(verb), NameTokens(name))
    ensures Lex(UpToNul(verb + " " + (to + " ") + IdentText(name))) ==
            Prepend(Word(verb), Prepend(Word(to), NameTokens(name)))
  {
    var ident := IdentText(name);
    LexIdentText(name);
    LexHead(verb, ident);
    LexHead(to, ident);
    LexHead(verb, to + " " + ident);
    assert verb + " " + (to + " ") + ident == verb + " " + (to + " " + ident);
  }

  lemma ParseNamed(keywords: set<string>, verb: string, name: string)
    requires verb != [] && IsIdentifier(verb)
    ensures var short := ParseCommand(keywords, CommandText(verb, false, name));
            && (Fold(verb) == "savepoint" ==>
                  short == if AcceptedName(keywords, name) then Some(SetSavepoint(name)) else None)
            && (Fold(verb) == "release" ==>
                  short == if AcceptedName(keywords, name) then Some(Release(name)) else None)
    ensures Fold(verb) == "rollback" ==>
              ParseCommand(keywords, CommandText(verb, true, name)) ==
              if AcceptedName(keywords, name) then Some(RollbackTo(name)) else None
  {
    var to := "TO";
    assert Fold(to) == "to";
    assert verb + " " + "" == verb + " ";
    LexNamed(verb, to, name);
    ParseNameTokens(keywords, verb, to, name);
  }

  lemma ParseNameTokens(keywords: set<string>, verb: string, to: string, name: string)
    requires Fold(to) == "to"
    ensures var short := Prepend(Word(verb), NameTokens(name));
            var long := Prepend(Word(verb), Prepend(Word(to), NameTokens(name)));
            && (NUL in name ==> short.None? && long.None?)
            && (NUL !in name ==>
                && short.Some? && long.Some?
                && (Fold(verb) == "savepoint" ==>
                      ParseTokens(keywords, short.value) ==
                      if AcceptedName(keywords, name) then Some(SetSavepoint(name)) else None)
                && (Fold(verb) == "release" ==>
                      ParseTokens(keywords, short.value) ==
                      if AcceptedName(keywords, name) then Some(Release(name)) else None)
                && (Fold(verb) == "rollback" ==>
                      ParseTokens(keywords, long.value) ==
                      if AcceptedName(keywords, name) then Some(RollbackTo(name)) else None))
  {
  }

  lemma FoldedWords()
    ensures Fold("SAVEPOINT") == "savepoint" && Fold("RELEASE") == "release"
    ensures Fold("ROLLBACK") == "rollback" && Fold("TO") == "to"
    ensures Fold("COMMIT") == "commit" && Fold("BEGIN") == "begin"
    ensures Fold("DEFERRED") == "deferred" && Fold("IMMEDIATE") == "immediate"
    ensures Fold("EXCLUSIVE") == "exclusive"
  {
  }

  /** The three savepoint commands are read as the command they were printed for, with exactly the
      given name, when the name is accepted; no other name yields any command at all. */
  lemma CommandRoundTrip(keywords: set<string>, name: string)
    ensures ParseCommand(keywords, CommandText("SAVEPOINT", false, name)) ==
            if AcceptedName(keywords, name) then Some(SetSavepoint(name)) else None
    ensures ParseCommand(keywords, CommandText("RELEASE", false, name)) ==
            if AcceptedName(keywords, name) then Some(Release(name)) else None
    ensures ParseCommand(keywords, CommandText("ROLLBACK", true, name)) ==
            if AcceptedName(keywords, name) then Some(RollbackTo(name)) else None
  {
    FoldedWords();
    ParseNamed(keywords, "SAVEPOINT", name);
    ParseNamed(keywords, "RELEASE", name);
    ParseNamed(keywords, "ROLLBACK", name);
  }

  lemma ParseWord(keywords: set<string>, w: string)
    requires w != [] && IsIdentifier(w) && (Fold(w) == "commit" || Fold(w) == "rollback")
    ensures ParseCommand(keywords, w) == Some(if Fold(w) == "commit" then CommitAll else RollbackAll)
  {
    LexIdentText(w);
  }

  lemma ParseBegin(keywords: set<string>, begin: string, mode: string)
    requires begin != [] && IsIdentifier(begin) && Fold(begin) == "begin"
    requires mode != [] && IsIdentifier(mode)
    requires Fold(mode) == "deferred" || Fold(mode) == "immediate" || Fold(mode) == "exclusive"
    ensures ParseCommand(keywords, begin + " " + mode) ==
            Some(Begin(if Fold(mode) == "deferred" then Deferred
                       else if Fold(mode) == "immediate" then Immediate else Exclusive))
  {
    LexIdentText(mode);
    LexHead(begin, mode);
  }
}

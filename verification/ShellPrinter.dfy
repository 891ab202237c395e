/**
 * The lines `backup-target.js` prints for `eval "$(…)"`, and the part of the
 * POSIX shell that reads them: POSIX.1-2017, Shell Command Language, sections
 * 2.2.1 and 2.2.2 (quoting), 2.6.3 (command substitution) and 2.9.1 (simple
 * commands).
 */
module ShellPrinter {
  import opened Prelude
  import Decimal

  const QUOTE := '\''
  const BACKSLASH := '\\'
  const NEWLINE := '\n'
  const NUL := '\0'

  // ----- The printer -----

  /** Every quote becomes: close, an escaped quote, open again. */
  function Escape(value: string): string {
    if value == "" then ""
    else (if value[0] == QUOTE then [QUOTE, BACKSLASH, QUOTE, QUOTE] else [value[0]]) + Escape(value[1..])
  }

  /** `aspas`; a value that is not there prints as an empty one. */
  function Quoted(value: Option<string>): string {
    [QUOTE] + Escape(Text(value)) + [QUOTE]
  }

  function Text(value: Option<string>): string {
    if value.Some? then value.value else ""
  }

  datatype Entry = Entry(name: string, value: Option<string>)

  function Line(e: Entry): string {
    e.name + "=" + Quoted(e.value) + [NEWLINE]
  }

  function Lines(entries: seq<Entry>): string {
    if entries == [] then "" else Line(entries[0]) + Lines(entries[1..])
  }

  // ----- The shell -----

  /** Section 2.6.3: trailing newlines of a command's output are removed. */
  function Strip(s: string): string {
    if s != "" && s[|s| - 1] == NEWLINE then Strip(s[..|s| - 1]) else s
  }

  /** All of them, and nothing else. */
  lemma {:induction false} StripMeaning(s: string)
    ensures Strip(s) <= s && forall i | |Strip(s)| <= i < |s| :: s[i] == '\n'
    ensures Strip(s) != "" ==> Strip(s)[|Strip(s)| - 1] != '\n'
  {
    if s != "" && s[|s| - 1] == NEWLINE { StripMeaning(s[..|s| - 1]); }
  }

  predicate IsLetter(c: char) {
    'a' <= c <= 'z' || 'A' <= c <= 'Z' || c == '_'
  }

  predicate IsName(s: string) {
    s != "" && IsLetter(s[0]) && forall i | 0 <= i < |s| :: IsLetter(s[i]) || Decimal.IsDigit(s[i])
  }

  /**
   * Unquoted characters that stand for themselves. Of those that do not, only
   * quotes, backslashes, blanks and newlines are followed further; an operator,
   * an expansion, a pattern or a comment is something other than an assignment.
   */
  predicate IsPlain(c: char) {
    IsLetter(c) || Decimal.IsDigit(c) || c in "=-./:,@+"
  }

  datatype Piece = Piece(c: char, quoted: bool)

  /** A word and what follows it; none where the text is cut short or holds something not followed here. */
  datatype Lexed = Lexed(word: seq<Piece>, rest: string) | NotFollowed

  function Before(p: Piece, l: Lexed): Lexed {
    match l
    case Lexed(word, rest) => Lexed([p] + word, rest)
    case NotFollowed => NotFollowed
  }

  /** Section 2.2.1: a backslash quotes the next character, and joins lines before a newline. */
  function LexWord(s: string): (r: Lexed)
    ensures r.Lexed? ==> |r.rest| <= |s|
    decreases |s|
  {
    if s == "" || s[0] in [' ', '\t', NEWLINE] then Lexed([], s)
    else if s[0] == QUOTE then LexQuoted(s[1..])
    else if s[0] == BACKSLASH then
      if |s| == 1 || s[1] == NUL then NotFollowed
      else if s[1] == NEWLINE then LexWord(s[2..])
      else Before(Piece(s[1], true), LexWord(s[2..]))
    else if IsPlain(s[0]) then Before(Piece(s[0], false), LexWord(s[1..]))
    else NotFollowed
  }

  /** Section 2.2.2: within single quotes every character stands for itself, up to the next one. No text holds a NUL. */
  function LexQuoted(s: string): (r: Lexed)
    ensures r.Lexed? ==> |r.rest| <= |s|
    decreases |s|
  {
    if s == "" || s[0] == NUL then NotFollowed
    else if s[0] == QUOTE then LexWord(s[1..])
    else Before(Piece(s[0], true), LexQuoted(s[1..]))
  }

  datatype Assignment = Assignment(name: string, value: string)

  /** Quote removal. */
  function Chars(word: seq<Piece>): string {
    seq(|word|, i requires 0 <= i < |word| => word[i].c)
  }

  /** Section 2.9.1: a word with an unquoted name up to its first `=` assigns the rest to that name. */
  function AsAssignment(word: seq<Piece>): Option<Assignment> {
    if i :| 0 <= i < |word| && IsFirstEquals(word, i) then
      if IsName(Chars(word[..i])) && forall k | 0 <= k < i :: !word[k].quoted
      then Some(Assignment(Chars(word[..i]), Chars(word[i + 1..])))
      else None
    else None
  }

  predicate IsFirstEquals(word: seq<Piece>, i: int)
    requires 0 <= i < |word|
  {
    word[i] == Piece('=', false) && forall k | 0 <= k < i :: word[k] != Piece('=', false)
  }

  /** What evaluating a text does. */
  datatype Effect = Assigns(list: seq<Assignment>) | Other

  function Eval(s: string): Effect
    decreases |s|
  {
    if s == "" then Assigns([])
    else if s[0] in [' ', '\t', NEWLINE] then Eval(s[1..])
    else
      match LexWord(s)
      case NotFollowed => Other
      case Lexed(word, rest) =>
        if AsAssignment(word).None? then Other
        else
          match Eval(rest)
          case Other => Other
          case Assigns(list) => Assigns([AsAssignment(word).value] + list)
  }

  // ----- Reading back what was printed -----

  function Piecewise(s: string, quoted: bool): (word: seq<Piece>)
    ensures |word| == |s| && forall i | 0 <= i < |s| :: word[i] == Piece(s[i], quoted)
  {
    seq(|s|, i requires 0 <= i < |s| => Piece(s[i], quoted))
  }

  /** A text with its pieces put in front of what was lexed after it. */
  function Prepend(word: seq<Piece>, l: Lexed): Lexed {
    match l
    case Lexed(rest, after) => Lexed(word + rest, after)
    case NotFollowed => NotFollowed
  }

  lemma PrependSplits(word: seq<Piece>, l: Lexed)
    requires word != []
    ensures Prepend(word, l) == Before(word[0], Prepend(word[1..], l))
  {
    if l.Lexed? { assert word + l.word == [word[0]] + (word[1..] + l.word); }
  }

  /** Close, escaped quote, open: one quoted quote, and still inside. */
  lemma EscapedQuoteReadsBack(tail: string)
    ensures LexQuoted([QUOTE, BACKSLASH, QUOTE, QUOTE] + tail) == Before(Piece(QUOTE, true), LexQuoted(tail))
  {
    var reopened := [QUOTE] + tail;
    var escaped := [BACKSLASH, QUOTE] + reopened;
    var closed := [QUOTE] + escaped;
    assert [QUOTE, BACKSLASH, QUOTE, QUOTE] + tail == closed;
    assert closed[1..] == escaped && escaped[2..] == reopened && reopened[1..] == tail;
    assert LexQuoted(closed) == LexWord(escaped);
    assert LexWord(escaped) == Before(Piece(QUOTE, true), LexWord(reopened));
    assert LexWord(reopened) == LexQuoted(tail);
  }

  /** Within the quotes, an escaped value reads as the value, and the quotes close behind it. */
  lemma {:induction false} EscapeReadsBack(value: string, rest: string)
    ensures LexQuoted(Escape(value) + [QUOTE] + rest)
      == if NUL in value then NotFollowed else Prepend(Piecewise(value, true), LexWord(rest))
  {
    if value == "" {
      assert [QUOTE] + rest == Escape(value) + [QUOTE] + rest;
      assert ([QUOTE] + rest)[1..] == rest;
      if LexWord(rest).Lexed? { assert [] + LexWord(rest).word == LexWord(rest).word; }
    } else {
      var tail := Escape(value[1..]) + [QUOTE] + rest;
      EscapeReadsBack(value[1..], rest);
      assert value == [value[0]] + value[1..];
      assert Piecewise(value, true)[1..] == Piecewise(value[1..], true);
      PrependSplits(Piecewise(value, true), LexWord(rest));
      var text := Escape(value) + [QUOTE] + rest;
      if value[0] == QUOTE {
        assert text == [QUOTE, BACKSLASH, QUOTE, QUOTE] + tail;
        EscapedQuoteReadsBack(tail);
      } else {
        assert text == [value[0]] + tail;
        assert text[1..] == tail;
      }
    }
  }

  /** A name and the sign after it read as themselves. */
  lemma {:induction false} PlainReadsBack(s: string, rest: string)
    requires forall i | 0 <= i < |s| :: IsPlain(s[i])
    ensures LexWord(s + rest) == Prepend(Piecewise(s, false), LexWord(rest))
  {
    if s == "" {
      assert s + rest == rest;
      if LexWord(rest).Lexed? { assert [] + LexWord(rest).word == LexWord(rest).word; }
    } else {
      PlainReadsBack(s[1..], rest);
      assert (s + rest)[1..] == s[1..] + rest;
      assert Piecewise(s, false)[1..] == Piecewise(s[1..], false);
      PrependSplits(Piecewise(s, false), LexWord(rest));
    }
  }

  function Target(e: Entry): Assignment {
    Assignment(e.name, Text(e.value))
  }

  function Targets(entries: seq<Entry>): seq<Assignment> {
    if entries == [] then [] else [Target(entries[0])] + Targets(entries[1..])
  }

  function WordOf(e: Entry): seq<Piece> {
    Piecewise(e.name + "=", false) + Piecewise(Text(e.value), true)
  }

  lemma WordAssigns(e: Entry)
    requires IsName(e.name)
    ensures AsAssignment(WordOf(e)) == Some(Target(e))
  {
    var word := WordOf(e);
    var n := |e.name|;
    assert (e.name + "=")[n] == '=';
    assert forall k | 0 <= k < n :: word[k] == Piece(e.name[k], false) && e.name[k] != '=';
    assert IsFirstEquals(word, n);
    assert Chars(word[..n]) == e.name;
    assert Chars(word[n + 1..]) == Text(e.value);
  }

  /** A printed value, whatever follows it on the next line. */
  lemma QuotedReadsBack(value: Option<string>, rest: string)
    requires rest == "" || rest[0] == NEWLINE
    ensures LexWord(Quoted(value) + rest)
      == if NUL in Text(value) then NotFollowed else Lexed(Piecewise(Text(value), true), rest)
  {
    var escaped := Escape(Text(value)) + [QUOTE] + rest;
    assert Quoted(value) + rest == [QUOTE] + escaped;
    assert ([QUOTE] + escaped)[1..] == escaped;
    assert LexWord([QUOTE] + escaped) == LexQuoted(escaped);
    EscapeReadsBack(Text(value), rest);
    assert Piecewise(Text(value), true) + [] == Piecewise(Text(value), true);
  }

  /** One printed line, whatever follows it. */
  lemma LineReadsBack(e: Entry, rest: string)
    requires IsName(e.name) && (rest == "" || rest[0] == NEWLINE)
    ensures LexWord(e.name + "=" + Quoted(e.value) + rest)
      == if NUL in Text(e.value) then NotFollowed else Lexed(WordOf(e), rest)
  {
    var name := e.name + "=";
    assert name + Quoted(e.value) + rest == name + (Quoted(e.value) + rest);
    assert forall i | 0 <= i < |name| :: IsPlain(name[i]);
    PlainReadsBack(name, Quoted(e.value) + rest);
    QuotedReadsBack(e.value, rest);
  }

  /** The lines as they reach the shell: without the last newline. */
  function Stripped(entries: seq<Entry>): string {
    if entries == [] then ""
    else
      var first := entries[0].name + "=" + Quoted(entries[0].value);
      if |entries| == 1 then first else first + ([NEWLINE] + Stripped(entries[1..]))
  }

  lemma {:induction false} LinesAreStrippedAndNewline(entries: seq<Entry>)
    requires entries != []
    ensures Lines(entries) == Stripped(entries) + [NEWLINE]
    ensures Stripped(entries) != "" && Stripped(entries)[|Stripped(entries)| - 1] == QUOTE
  {
    var first := entries[0].name + "=" + Quoted(entries[0].value);
    assert first[|first| - 1] == QUOTE;
    if |entries| == 1 {
      assert Lines(entries[1..]) == "";
      assert Lines(entries) == first + [NEWLINE] + "";
    } else {
      LinesAreStrippedAndNewline(entries[1..]);
      assert Lines(entries) == first + [NEWLINE] + (Stripped(entries[1..]) + [NEWLINE]);
      assert Stripped(entries) + [NEWLINE] == first + [NEWLINE] + (Stripped(entries[1..]) + [NEWLINE]);
    }
  }

  lemma StripRemovesLast(entries: seq<Entry>)
    ensures Strip(Lines(entries)) == Stripped(entries)
  {
    if entries != [] {
      LinesAreStrippedAndNewline(entries);
      assert Lines(entries)[..|Lines(entries)| - 1] == Stripped(entries);
    }
  }

  /** Some value cannot pass through a shell at all. */
  predicate HoldsNul(entries: seq<Entry>) {
    exists i | 0 <= i < |entries| :: NUL in Text(entries[i].value)
  }

  lemma {:induction false} StrippedEvaluates(entries: seq<Entry>)
    requires forall e | e in entries :: IsName(e.name)
    ensures Eval(Stripped(entries)) == if HoldsNul(entries) then Other else Assigns(Targets(entries))
  {
    if entries != [] {
      var e := entries[0];
      var tail := entries[1..];
      var rest := if |entries| == 1 then "" else [NEWLINE] + Stripped(tail);
      StrippedEvaluates(tail);
      var first := e.name + "=" + Quoted(e.value);
      assert first + "" == first;
      assert Stripped(entries) == first + rest;
      LineReadsBack(e, rest);
      WordAssigns(e);
      assert Stripped(entries)[0] == e.name[0];
      assert rest != "" ==> rest[1..] == Stripped(tail);
      assert Eval(rest) == Eval(Stripped(tail));
      HoldsNulSplits(entries);
    }
  }

  lemma HoldsNulSplits(entries: seq<Entry>)
    requires entries != []
    ensures HoldsNul(entries) <==> NUL in Text(entries[0].value) || HoldsNul(entries[1..])
  {
    if i :| 0 <= i < |entries| && NUL in Text(entries[i].value) {
      if i > 0 { assert NUL in Text(entries[1..][i - 1].value); }
    }
    if i :| 0 <= i < |entries[1..]| && NUL in Text(entries[1..][i].value) {
      assert NUL in Text(entries[i + 1].value);
    }
  }

  /**
   * Evaluating the printed lines assigns exactly the values that were printed,
   * in order, and does nothing else, for any values without a NUL: quotes,
   * newlines, expansions and backslashes included. A NUL is in no shell text, so
   * lines that hold one are taken to evaluate to something else.
   */
  lemma PrintedLinesEvaluate(entries: seq<Entry>)
    requires forall e | e in entries :: IsName(e.name)
    ensures Eval(Strip(Lines(entries))) == if HoldsNul(entries) then Other else Assigns(Targets(entries))
  {
    StripRemovesLast(entries);
    StrippedEvaluates(entries);
  }

  // ----- The script -----

  /** What `readDbConfig` returns, as far as the script reads it. */
  datatype DbConfig = DbConfig(
    filename: Option<string>, host: Option<string>, port: Option<nat>, user: Option<string>,
    password: Option<string>, database: Option<string>, schema: Option<string>, ssl: bool, rejectUnauthorized: Option<bool>)

  datatype Place = Place(client: string, dataDir: string, sqlitePath: string)

  function Default(value: Option<string>, text: string): Option<string> {
    if value.Some? then value else Some(text)
  }

  function Entries(config: DbConfig, place: Place): seq<Entry> {
    [Entry("SKYGP_CLIENT", Some(place.client)),
     Entry("SKYGP_DATA_DIR", Some(place.dataDir)),
     Entry("SKYGP_MEDIA_DIR", Some(place.dataDir + "/wa-media"))]
    + if place.client == "better-sqlite3" then
        [Entry("SKYGP_SQLITE_PATH",
               if config.filename in [None, Some("")] then Some(place.sqlitePath) else config.filename)]
      else
        var postgres := place.client == "pg";
        [Entry("SKYGP_HOST", Default(config.host, "127.0.0.1")),
         Entry("SKYGP_PORT",
               Some(Decimal.ToDecimal(if config.port.Some? then config.port.value else if postgres then 5432 else 3306))),
         Entry("SKYGP_USER", Default(config.user, "")),
         Entry("SKYGP_PASSWORD", Default(config.password, "")),
         Entry("SKYGP_DATABASE", Default(config.database, "")),
         Entry("SKYGP_SCHEMA", if postgres then Default(config.schema, "") else Some("")),
         Entry("SKYGP_SSL", Some(if config.ssl then "1" else "0")),
         Entry("SKYGP_SSL_VERIFY", Some(if config.ssl && config.rejectUnauthorized == Some(false) then "0" else "1"))]
  }

  lemma FixedNames()
    ensures forall name | name in ["SKYGP_CLIENT", "SKYGP_DATA_DIR", "SKYGP_MEDIA_DIR", "SKYGP_SQLITE_PATH"] :: IsName(name)
  {
  }

  lemma ServerNames()
    ensures forall name | name in ["SKYGP_HOST", "SKYGP_PORT", "SKYGP_USER", "SKYGP_PASSWORD"] :: IsName(name)
    ensures forall name | name in ["SKYGP_DATABASE", "SKYGP_SCHEMA", "SKYGP_SSL", "SKYGP_SSL_VERIFY"] :: IsName(name)
  {
  }

  lemma EntriesAreNamed(config: DbConfig, place: Place)
    ensures forall e | e in Entries(config, place) :: IsName(e.name)
  {
    FixedNames();
    ServerNames();
    var entries := Entries(config, place);
    forall e | e in entries ensures IsName(e.name) {
      var i :| 0 <= i < |entries| && entries[i] == e;
      assert e.name in ["SKYGP_CLIENT", "SKYGP_DATA_DIR", "SKYGP_MEDIA_DIR", "SKYGP_SQLITE_PATH"]
          || e.name in ["SKYGP_HOST", "SKYGP_PORT", "SKYGP_USER", "SKYGP_PASSWORD"]
          || e.name in ["SKYGP_DATABASE", "SKYGP_SCHEMA", "SKYGP_SSL", "SKYGP_SSL_VERIFY"];
    }
  }

  /** The one value a variable is printed with. */
  ghost predicate PrintedAs(config: DbConfig, place: Place, name: string, value: string) {
    && Assignment(name, value) in Targets(Entries(config, place))
    && forall a | a in Targets(Entries(config, place)) && a.name == name :: a.value == value
  }

  lemma {:induction false} TargetsOf(entries: seq<Entry>, a: Assignment)
    ensures a in Targets(entries) <==> exists e | e in entries :: Target(e) == a
  {
    if entries != [] {
      TargetsOf(entries[1..], a);
      assert entries == [entries[0]] + entries[1..];
      assert entries[0] in entries;
    }
  }

  /** An entry that no other shares its name with gives its variable. */
  lemma EntryPrintsAs(config: DbConfig, place: Place, i: nat)
    requires var entries := Entries(config, place);
      i < |entries| && forall j | 0 <= j < |entries| && j != i :: entries[j].name != entries[i].name
    ensures PrintedAs(config, place, Entries(config, place)[i].name, Text(Entries(config, place)[i].value))
  {
    var entries := Entries(config, place);
    TargetsOf(entries, Target(entries[i]));
    assert entries[i] in entries;
    forall a | a in Targets(entries) && a.name == entries[i].name ensures a.value == Text(entries[i].value) {
      TargetsOf(entries, a);
      var e :| e in entries && Target(e) == a;
      var j :| 0 <= j < |entries| && entries[j] == e;
    }
  }

  /** What the consumer's variables are, for the file kind of database. */
  lemma SqliteVariables(config: DbConfig, place: Place)
    requires place.client == "better-sqlite3"
    ensures |Targets(Entries(config, place))| == 4
    ensures PrintedAs(config, place, "SKYGP_CLIENT", "better-sqlite3")
    ensures PrintedAs(config, place, "SKYGP_DATA_DIR", place.dataDir)
    ensures PrintedAs(config, place, "SKYGP_MEDIA_DIR", place.dataDir + "/wa-media")
    ensures PrintedAs(config, place, "SKYGP_SQLITE_PATH",
                      if config.filename.Some? && config.filename.value != "" then config.filename.value else place.sqlitePath)
  {
    var entries := Entries(config, place);
    TargetsLength(entries);
    assert forall i | 0 <= i < 4 :: entries[i].name == SQLITE_NAMES[i];
    SqliteNamesDiffer();
    EntryPrintsAs(config, place, 0);
    EntryPrintsAs(config, place, 1);
    EntryPrintsAs(config, place, 2);
    EntryPrintsAs(config, place, 3);
  }

  lemma {:induction false} TargetsLength(entries: seq<Entry>)
    ensures |Targets(entries)| == |entries|
  {
    if entries != [] { TargetsLength(entries[1..]); }
  }

  const SQLITE_NAMES := ["SKYGP_CLIENT", "SKYGP_DATA_DIR", "SKYGP_MEDIA_DIR", "SKYGP_SQLITE_PATH"]

  const SERVER_NAMES := ["SKYGP_CLIENT", "SKYGP_DATA_DIR", "SKYGP_MEDIA_DIR", "SKYGP_HOST", "SKYGP_PORT", "SKYGP_USER",
                         "SKYGP_PASSWORD", "SKYGP_DATABASE", "SKYGP_SCHEMA", "SKYGP_SSL", "SKYGP_SSL_VERIFY"]

  lemma SqliteNamesDiffer()
    ensures Distinct(SQLITE_NAMES)
  {
  }

  lemma ServerNamesDiffer()
    ensures Distinct(SERVER_NAMES)
  {
  }

  // What they are for the kinds that have a server.

  /** Where its data is. */
  lemma ServerPlace(config: DbConfig, place: Place)
    requires place.client != "better-sqlite3"
    ensures PrintedAs(config, place, "SKYGP_CLIENT", place.client)
    ensures PrintedAs(config, place, "SKYGP_DATA_DIR", place.dataDir)
    ensures PrintedAs(config, place, "SKYGP_MEDIA_DIR", place.dataDir + "/wa-media")
  {
    ServerPrints(config, place, 0);
    ServerPrints(config, place, 1);
    ServerPrints(config, place, 2);
  }

  /** Where its server is. */
  lemma ServerAddress(config: DbConfig, place: Place)
    requires place.client != "better-sqlite3"
    ensures PrintedAs(config, place, "SKYGP_HOST", if config.host.Some? then config.host.value else "127.0.0.1")
    ensures PrintedAs(config, place, "SKYGP_PORT",
                      Decimal.ToDecimal(if config.port.Some? then config.port.value else if place.client == "pg" then 5432 else 3306))
  {
    ServerPrints(config, place, 3);
    ServerPrints(config, place, 4);
  }

  /** Who connects. */
  lemma ServerLogin(config: DbConfig, place: Place)
    requires place.client != "better-sqlite3"
    ensures PrintedAs(config, place, "SKYGP_USER", Text(config.user))
    ensures PrintedAs(config, place, "SKYGP_PASSWORD", Text(config.password))
  {
    ServerPrints(config, place, 5);
    ServerPrints(config, place, 6);
  }

  /** To what. */
  lemma ServerDatabase(config: DbConfig, place: Place)
    requires place.client != "better-sqlite3"
    ensures PrintedAs(config, place, "SKYGP_DATABASE", Text(config.database))
    ensures PrintedAs(config, place, "SKYGP_SCHEMA", if place.client == "pg" then Text(config.schema) else "")
  {
    ServerPrints(config, place, 7);
    ServerPrints(config, place, 8);
  }

  /** And how. */
  lemma ServerSsl(config: DbConfig, place: Place)
    requires place.client != "better-sqlite3"
    ensures PrintedAs(config, place, "SKYGP_SSL", if config.ssl then "1" else "0")
    ensures PrintedAs(config, place, "SKYGP_SSL_VERIFY", if config.ssl && config.rejectUnauthorized == Some(false) then "0" else "1")
  {
    ServerPrints(config, place, 9);
    ServerPrints(config, place, 10);
  }

  /** These are all there are. */
  lemma ServerVariables(config: DbConfig, place: Place)
    requires place.client != "better-sqlite3"
    ensures |Targets(Entries(config, place))| == 11
  {
    TargetsLength(Entries(config, place));
  }

  lemma ServerPrints(config: DbConfig, place: Place, i: nat)
    requires place.client != "better-sqlite3" && i < 11
    ensures |Entries(config, place)| == 11
    ensures PrintedAs(config, place, SERVER_NAMES[i], Text(Entries(config, place)[i].value))
  {
    ServerEntryNames(config, place);
    ServerNamesDiffer();
    EntryPrintsAs(config, place, i);
  }

  lemma ServerEntryNames(config: DbConfig, place: Place)
    requires place.client != "better-sqlite3"
    ensures var entries := Entries(config, place);
      |entries| == 11 && forall i | 0 <= i < 11 :: entries[i].name == SERVER_NAMES[i]
  {
  }

  /** `main`, writing to the text the consumer evaluates. */
  method PrintTarget(config: DbConfig, place: Place) returns (output: string)
    ensures output == Lines(Entries(config, place))
    ensures !HoldsNul(Entries(config, place)) ==> Eval(Strip(output)) == Assigns(Targets(Entries(config, place)))
  {
    var lines := Entries(config, place);
    output := "";
    for i := 0 to |lines|
      invariant output + Lines(lines[i..]) == Lines(lines)
    {
      assert lines[i..][0] == lines[i] && lines[i..][1..] == lines[i + 1..];
      assert output + (Line(lines[i]) + Lines(lines[i + 1..])) == (output + Line(lines[i])) + Lines(lines[i + 1..]);
      output := output + Line(lines[i]);
    }
    assert lines[|lines|..] == [];
    EntriesAreNamed(config, place);
    PrintedLinesEvaluate(lines);
  }
}

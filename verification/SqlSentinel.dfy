/**
 * The verdict of `sqlSentinel.js`: which provider-owned tables a statement
 * touches with no provider column in sight, decided by patterns over the raw
 * text, and the same verdict read off the statement's tokens.
 */
module SqlSentinel {
  import opened Prelude
  import opened SqlText

  const TENANT_COLUMN := "tenant_id"

  // ----- Patterns over the text -----

  /** A pattern with no word character right before it: `(?<![A-Za-z0-9_])`. */
  ghost predicate Found(s: string, p: string -> bool) {
    exists i: nat | i <= |s| :: Clear(s, i) && p(s[i..])
  }

  predicate Clear(s: string, i: nat)
    requires i <= |s|
  {
    i == 0 || !IsWord(s[i - 1])
  }

  function Lower(c: char): char {
    if 'A' <= c <= 'Z' then c - 'A' + 'a' else c
  }

  function Fold(s: string): (r: string)
    ensures |r| == |s|
  {
    seq(|s|, i requires 0 <= i < |s| => Lower(s[i]))
  }

  predicate StartsWithKeyword(t: string, keyword: string) {
    |keyword| <= |t| && Fold(t[..|keyword|]) == keyword && (|t| == |keyword| || !IsWord(t[|keyword|]))
  }

  ghost predicate NameIn(sql: string, name: string) {
    Found(sql, t => StartsWithWord(t, name))
  }

  const CLOSING := {'"', '`', ']'}
  const OPENING := {'"', '`', '['}

  function SkipOne(t: string, chars: set<char>): string {
    if t != "" && t[0] in chars then t[1..] else t
  }

  predicate ColumnFirst(t: string) {
    StartsWithWord(SkipOne(SkipSpaces(t), OPENING), TENANT_COLUMN)
  }

  /**
   * What may stand between a table and its column. No two neighbouring parts of
   * the pattern can begin with the same character, so there is one way to match it.
   */
  predicate TenantColumnFollows(t: string) {
    var dot := SkipSpaces(SkipOne(t, CLOSING));
    dot != "" && dot[0] == '.' && ColumnFirst(dot[1..])
  }

  predicate QualifiedFirst(t: string, table: string) {
    table <= t && TenantColumnFollows(t[|table|..])
  }

  ghost predicate QualifiedTenantColumn(sql: string, table: string) {
    Found(sql, t => QualifiedFirst(t, table))
  }

  const VERBS := ["select", "insert", "update", "delete", "replace"]

  predicate VerbAt(t: string) {
    exists k | 0 <= k < |VERBS| :: StartsWithKeyword(t, VERBS[k])
  }

  ghost predicate KeywordIn(sql: string, keyword: string) {
    Found(sql, t => StartsWithKeyword(t, keyword))
  }

  /** The `DML` pattern: a verb, or `with`, anything up to a closing parenthesis, and a verb. */
  ghost predicate DmlShape(sql: string) {
    var t := SkipSpaces(sql);
    VerbAt(t) || (StartsWithKeyword(t, "with") && AfterSome(t[4..], ')', u => VerbAt(SkipSpaces(u))))
  }

  const SHADOW := "_knex_temp_alter"

  ghost predicate KnexPlumbing(sql: string) {
    || KeywordIn(sql, "sqlite_master")
    || KeywordIn(sql, "information_schema")
    || Contains(Fold(sql), SHADOW)
  }

  ghost predicate IsDml(sql: string) {
    DmlShape(sql) && !KnexPlumbing(sql)
  }

  ghost function Named(sql: string, tables: seq<string>): seq<string> {
    Filter(tables, t => NameIn(sql, t))
  }

  ghost function UnscopedTablesIn(sql: string, tables: seq<string>): seq<string> {
    if !IsDml(sql) then []
    else
      var named := Named(sql, tables);
      if |named| == 0 then []
      else if |named| == 1 then (if NameIn(sql, TENANT_COLUMN) then [] else named)
      else Filter(named, t => !QualifiedTenantColumn(sql, t))
  }

  // ----- The same, over tokens -----

  predicate Names(tokens: seq<Token>, name: string) {
    Word(name) in tokens
  }

  predicate IsKeyword(t: Token, keyword: string) {
    t.Word? && Fold(t.text) == keyword
  }

  function SkipOneToken(tokens: seq<Token>, chars: set<char>): seq<Token> {
    if tokens != [] && tokens[0].Sym? && tokens[0].c in chars then tokens[1..] else tokens
  }

  predicate ColumnFirstToken(tokens: seq<Token>) {
    var column := SkipOneToken(SkipSpaceTokens(tokens), OPENING);
    column != [] && column[0] == Word(TENANT_COLUMN)
  }

  predicate TenantColumnToken(tokens: seq<Token>) {
    var dot := SkipSpaceTokens(SkipOneToken(tokens, CLOSING));
    dot != [] && dot[0] == Sym('.') && ColumnFirstToken(dot[1..])
  }

  /** The table, its own `tenant_id` right behind it. */
  predicate Qualifies(tokens: seq<Token>, table: string) {
    exists j | 0 <= j < |tokens| :: tokens[j] == Word(table) && TenantColumnToken(tokens[j + 1..])
  }

  predicate VerbFirst(tokens: seq<Token>) {
    tokens != [] && exists k | 0 <= k < |VERBS| :: IsKeyword(tokens[0], VERBS[k])
  }

  ghost predicate DmlTokens(tokens: seq<Token>) {
    var u := SkipSpaceTokens(tokens);
    VerbFirst(u)
    || (u != [] && IsKeyword(u[0], "with") && AfterSomeToken(u[1..], ')', v => VerbFirst(SkipSpaceTokens(v))))
  }

  predicate HasKeyword(tokens: seq<Token>, keyword: string) {
    exists t | t in tokens :: IsKeyword(t, keyword)
  }

  ghost predicate HasPart(tokens: seq<Token>, part: string) {
    exists t | t in tokens :: t.Word? && Contains(Fold(t.text), part)
  }

  ghost predicate PlumbingTokens(tokens: seq<Token>) {
    HasKeyword(tokens, "sqlite_master") || HasKeyword(tokens, "information_schema") || HasPart(tokens, SHADOW)
  }

  ghost predicate Judged(tokens: seq<Token>) {
    DmlTokens(tokens) && !PlumbingTokens(tokens)
  }

  /** A statement is one of these five, whatever its case. */
  lemma VerbsMeaning(tokens: seq<Token>)
    ensures VerbFirst(tokens) <==>
      tokens != [] && tokens[0].Word? && Fold(tokens[0].text) in {"select", "insert", "update", "delete", "replace"}
  {
    assert VERBS[0] == "select" && VERBS[1] == "insert" && VERBS[2] == "update" && VERBS[3] == "delete" && VERBS[4] == "replace";
  }

  /** The column a filter is recognised by, bare or in any of the three ways of quoting, and nothing else in its place. */
  lemma ColumnMeaning(tokens: seq<Token>)
    ensures ColumnFirstToken(tokens) <==>
      var u := SkipSpaceTokens(tokens);
      var column := if u != [] && u[0] in {Sym('"'), Sym('`'), Sym('[')} then u[1..] else u;
      column != [] && column[0] == Word("tenant_id")
  {
  }

  /** A table passes when it is the only one named and `tenant_id` is there, or when its own column is. */
  predicate TablePasses(tokens: seq<Token>, tables: seq<string>, table: string) {
    if forall other | other in tables && Names(tokens, other) :: other == table
    then Names(tokens, TENANT_COLUMN)
    else Qualifies(tokens, table)
  }

  // ----- One pattern at a time -----

  /** A pattern that can only start at a word is found where `AtSomeWord` finds it. */
  lemma FoundAtWords(s: string, p: string -> bool)
    requires forall t: string | p(t) :: t != "" && IsWord(t[0])
    ensures Found(s, p) <==> AtSomeWord(s, p)
  {
    if i: nat :| i <= |s| && Clear(s, i) && p(s[i..]) {
      assert s[i..][0] == s[i];
      assert WordStart(s, i) && p(s[i..]);
    }
    if i: nat :| i < |s| && WordStart(s, i) && p(s[i..]) {
      assert Clear(s, i) && p(s[i..]);
    }
  }

  lemma NameInIsToken(sql: string, name: string)
    requires IsName(name)
    ensures NameIn(sql, name) <==> Names(Tokenize(sql), name)
  {
    var p := (t: string) => StartsWithWord(t, name);
    var q := (u: seq<Token>) => u != [] && u[0] == Word(name);
    forall t: string ensures p(t) == q(Tokenize(t)) && (p(t) ==> t != "" && IsWord(t[0])) {
      StartIsFirstToken(t, name);
      if p(t) { assert t[0] == name[0]; }
    }
    FoundAtWords(sql, p);
    WordsAreTokens(sql, p, q);
    var tokens := Tokenize(sql);
    if Names(tokens, name) {
      var j :| 0 <= j < |tokens| && tokens[j] == Word(name);
      assert tokens[j].Word? && q(tokens[j..]);
    }
  }

  lemma SkipOneCommutes(t: string, chars: set<char>)
    requires forall c | c in chars :: !IsWord(c)
    ensures Tokenize(SkipOne(t, chars)) == SkipOneToken(Tokenize(t), chars)
  {
  }

  lemma ColumnFirstIsToken(t: string)
    ensures ColumnFirst(t) <==> ColumnFirstToken(Tokenize(t))
  {
    SkippingCommutes(t);
    SkipOneCommutes(SkipSpaces(t), OPENING);
    TenantColumnIsName();
    StartIsFirstToken(SkipOne(SkipSpaces(t), OPENING), TENANT_COLUMN);
  }

  lemma TenantColumnIsName()
    ensures IsName(TENANT_COLUMN)
  {
  }

  lemma DotIsToken(t: string)
    ensures t != "" && t[0] == '.' <==> Tokenize(t) != [] && Tokenize(t)[0] == Sym('.')
    ensures t != "" && t[0] == '.' ==> Tokenize(t)[1..] == Tokenize(t[1..])
  {
  }

  lemma ColumnIsToken(t: string)
    ensures TenantColumnFollows(t) <==> TenantColumnToken(Tokenize(t))
  {
    var close := SkipOne(t, CLOSING);
    var dot := SkipSpaces(close);
    SkipOneCommutes(t, CLOSING);
    SkippingCommutes(close);
    DotIsToken(dot);
    if dot != "" && dot[0] == '.' { ColumnFirstIsToken(dot[1..]); }
  }

  lemma ColumnFollowsIsNoWord(t: string)
    requires TenantColumnFollows(t)
    ensures t != "" && !IsWord(t[0])
  {
  }

  predicate QualifiedToken(tokens: seq<Token>, table: string) {
    tokens != [] && tokens[0] == Word(table) && TenantColumnToken(tokens[1..])
  }

  lemma QualifiedFirstIsToken(t: string, table: string)
    requires IsName(table)
    ensures QualifiedFirst(t, table) <==> QualifiedToken(Tokenize(t), table)
    ensures QualifiedFirst(t, table) ==> t != "" && IsWord(t[0])
  {
    StartIsFirstToken(t, table);
    if table <= t {
      ColumnIsToken(t[|table|..]);
      assert t[0] == table[0];
      if QualifiedFirst(t, table) { ColumnFollowsIsNoWord(t[|table|..]); }
    }
  }

  lemma QualifiesSomewhere(tokens: seq<Token>, table: string)
    ensures Qualifies(tokens, table) <==> exists j: nat | j < |tokens| :: tokens[j].Word? && QualifiedToken(tokens[j..], table)
  {
    if j :| 0 <= j < |tokens| && tokens[j] == Word(table) && TenantColumnToken(tokens[j + 1..]) {
      assert tokens[j..][1..] == tokens[j + 1..];
      assert tokens[j].Word? && QualifiedToken(tokens[j..], table);
    }
    if j: nat :| j < |tokens| && tokens[j].Word? && QualifiedToken(tokens[j..], table) {
      assert tokens[j..][1..] == tokens[j + 1..];
      assert tokens[j] == Word(table) && TenantColumnToken(tokens[j + 1..]);
    }
  }

  lemma QualifiedIsTokens(sql: string, table: string)
    requires IsName(table)
    ensures QualifiedTenantColumn(sql, table) <==> Qualifies(Tokenize(sql), table)
  {
    var p := (t: string) => QualifiedFirst(t, table);
    var q := (u: seq<Token>) => QualifiedToken(u, table);
    forall t: string ensures p(t) == q(Tokenize(t)) && (p(t) ==> t != "" && IsWord(t[0])) {
      QualifiedFirstIsToken(t, table);
    }
    FoundAtWords(sql, p);
    WordsAreTokens(sql, p, q);
    QualifiesSomewhere(Tokenize(sql), table);
  }

  predicate IsFoldedName(s: string) {
    IsName(s) && Fold(s) == s
  }

  lemma FoldKeepsWords(s: string)
    ensures forall i | 0 <= i < |s| :: IsWord(Fold(s)[i]) == IsWord(s[i])
  {
  }

  lemma KeywordIsFirstToken(t: string, keyword: string)
    requires IsFoldedName(keyword)
    ensures StartsWithKeyword(t, keyword) <==> Tokenize(t) != [] && IsKeyword(Tokenize(t)[0], keyword)
    ensures StartsWithKeyword(t, keyword) ==> IsWord(t[0]) && Tokenize(t[|keyword|..]) == Tokenize(t)[1..]
  {
    if StartsWithKeyword(t, keyword) {
      var name := t[..|keyword|];
      FoldKeepsWords(name);
      assert IsWord(Fold(name)[0]);
      StartIsFirstToken(t, name);
    }
    if t != "" && IsWord(t[0]) && Fold(t[..Run(t)]) == keyword {
      assert |keyword| == Run(t);
    }
  }

  lemma KeywordFoundIsToken(sql: string, keyword: string)
    requires IsFoldedName(keyword)
    ensures KeywordIn(sql, keyword) <==> HasKeyword(Tokenize(sql), keyword)
  {
    var p := (t: string) => StartsWithKeyword(t, keyword);
    var q := (u: seq<Token>) => u != [] && IsKeyword(u[0], keyword);
    forall t: string ensures p(t) == q(Tokenize(t)) && (p(t) ==> t != "" && IsWord(t[0])) {
      KeywordIsFirstToken(t, keyword);
    }
    FoundAtWords(sql, p);
    WordsAreTokens(sql, p, q);
    var tokens := Tokenize(sql);
    if t :| t in tokens && IsKeyword(t, keyword) {
      var j :| 0 <= j < |tokens| && tokens[j] == t;
      assert tokens[j].Word? && q(tokens[j..]);
    }
    if j: nat :| j < |tokens| && tokens[j].Word? && q(tokens[j..]) {
      assert tokens[j] in tokens && IsKeyword(tokens[j], keyword);
    }
  }

  lemma VerbsAreFolded(k: nat)
    requires k < |VERBS|
    ensures IsFoldedName(VERBS[k])
  {
  }

  lemma VerbIsToken(t: string)
    ensures VerbAt(t) <==> VerbFirst(Tokenize(t))
  {
    var verbs := VERBS;
    forall k | 0 <= k < |verbs|
      ensures StartsWithKeyword(t, verbs[k]) <==> Tokenize(t) != [] && IsKeyword(Tokenize(t)[0], verbs[k])
    {
      VerbsAreFolded(k);
      KeywordIsFirstToken(t, verbs[k]);
    }
  }

  lemma DmlIsTokens(sql: string)
    ensures DmlShape(sql) <==> DmlTokens(Tokenize(sql))
  {
    var t := SkipSpaces(sql);
    SkippingCommutes(sql);
    VerbIsToken(t);
    KeywordIsFirstToken(t, "with");
    if StartsWithKeyword(t, "with") {
      var p := (u: string) => VerbAt(SkipSpaces(u));
      var q := (v: seq<Token>) => VerbFirst(SkipSpaceTokens(v));
      forall u: string ensures p(u) == q(Tokenize(u)) {
        SkippingCommutes(u);
        VerbIsToken(SkipSpaces(u));
      }
      SymbolsAreTokens(t[4..], ')', p, q);
    }
  }

  lemma ContainsSplits(s: string, n: nat, part: string)
    requires part != "" && n <= |s|
    requires forall i | 0 <= i < n && part <= s[i..] :: i + |part| <= n
    ensures Contains(s, part) <==> Contains(s[..n], part) || Contains(s[n..], part)
  {
    if i: nat :| i <= |s| && part <= s[i..] {
      if i < n {
        assert s[..n][i..] == s[i..][..n - i];
        assert part <= s[..n][i..];
      } else {
        assert s[n..][i - n..] == s[i..];
      }
    }
    if i: nat :| i <= n && part <= s[..n][i..] {
      assert s[..n][i..] == s[i..][..n - i];
      assert part <= s[i..];
    }
    if i: nat :| i <= |s[n..]| && part <= s[n..][i..] {
      assert s[n..][i..] == s[i + n..];
      assert part <= s[i + n..];
    }
  }

  /** No run of word characters crosses a boundary. */
  lemma OccurrenceStaysInside(s: string, n: nat, part: string, i: nat)
    requires IsName(part) && 0 < n <= |s| && (n == |s| || !IsWord(s[n - 1]) || !IsWord(s[n]))
    requires i < n && part <= s[i..]
    ensures i + |part| <= n
  {
    forall k | i <= k < i + |part| ensures IsWord(s[k]) {
      assert s[k] == s[i..][k - i] == part[k - i];
    }
  }

  /** A run of word characters occurs in a text, whatever the case, if and only if it occurs in one of its words. */
  lemma {:induction false} ShadowIsInWord(sql: string, part: string)
    requires IsFoldedName(part)
    ensures Contains(Fold(sql), part) <==> HasPart(Tokenize(sql), part)
    decreases |sql|
  {
    if sql == "" {
    } else {
      var n := First(sql);
      var tokens := Tokenize(sql);
      ShadowIsInWord(sql[n..], part);
      assert tokens == [tokens[0]] + Tokenize(sql[n..]);
      assert Fold(sql)[n..] == Fold(sql[n..]) && Fold(sql)[..n] == Fold(sql[..n]);
      FoldKeepsWords(sql);
      forall i | 0 <= i < n && part <= Fold(sql)[i..] ensures i + |part| <= n {
        OccurrenceStaysInside(Fold(sql), n, part, i);
      }
      ContainsSplits(Fold(sql), n, part);
      if !IsWord(sql[0]) {
        OneSymbolHoldsNoWord(Fold(sql)[..n], part);
      } else {
        assert tokens[0] == Word(sql[..n]);
      }
    }
  }

  lemma OneSymbolHoldsNoWord(s: string, part: string)
    requires |s| == 1 && !IsWord(s[0]) && IsName(part)
    ensures !Contains(s, part)
  {
    assert s[0..] == s && s[1..] == "";
    assert !IsWord(s[0]) && IsWord(part[0]);
  }

  lemma PlumbingNames()
    ensures IsFoldedName("sqlite_master") && IsFoldedName("information_schema") && IsFoldedName(SHADOW)
  {
  }

  lemma PlumbingIsTokens(sql: string)
    ensures KnexPlumbing(sql) <==> PlumbingTokens(Tokenize(sql))
  {
    PlumbingNames();
    KeywordFoundIsToken(sql, "sqlite_master");
    KeywordFoundIsToken(sql, "information_schema");
    ShadowIsInWord(sql, SHADOW);
  }

  lemma JudgedIsTokens(sql: string)
    ensures IsDml(sql) <==> Judged(Tokenize(sql))
  {
    DmlIsTokens(sql);
    PlumbingIsTokens(sql);
  }

  // ----- The verdict -----

  lemma {:induction false} FilterMembers<T>(s: seq<T>, keep: T -> bool)
    ensures forall x :: x in Filter(s, keep) <==> x in s && keep(x)
    ensures Distinct(s) ==> Distinct(Filter(s, keep))
  {
    if s != [] {
      FilterMembers(s[1..], keep);
      assert forall i | 0 <= i < |s[1..]| :: s[1..][i] == s[i + 1];
      assert forall x :: x in s <==> x == s[0] || x in s[1..];
    }
  }

  /** A table passes, in the text's terms. */
  ghost predicate TextPasses(sql: string, tables: seq<string>, table: string) {
    if AloneIn(sql, tables, table) then NameIn(sql, TENANT_COLUMN) else QualifiedTenantColumn(sql, table)
  }

  ghost predicate AloneIn(sql: string, tables: seq<string>, table: string) {
    forall other | other in tables && NameIn(sql, other) :: other == table
  }

  lemma NamedAre(sql: string, tables: seq<string>)
    requires Distinct(tables)
    ensures Distinct(Named(sql, tables)) && forall t :: t in Named(sql, tables) <==> t in tables && NameIn(sql, t)
  {
    FilterMembers(tables, t => NameIn(sql, t));
  }

  lemma OneNamed(sql: string, tables: seq<string>, t: string)
    requires Distinct(tables) && t in Named(sql, tables)
    ensures |Named(sql, tables)| == 1 <==> AloneIn(sql, tables, t)
  {
    var named := Named(sql, tables);
    NamedAre(sql, tables);
    if |named| == 1 {
      assert named[0] == t;
      assert forall other | other in named :: other == t;
    } else {
      assert named[0] != named[1] && named[0] in named && named[1] in named;
    }
  }

  lemma VerdictTableByTable(sql: string, tables: seq<string>)
    requires Distinct(tables)
    ensures forall t :: t in UnscopedTablesIn(sql, tables) <==>
      IsDml(sql) && t in tables && NameIn(sql, t) && !TextPasses(sql, tables, t)
  {
    var named := Named(sql, tables);
    NamedAre(sql, tables);
    FilterMembers(named, t => !QualifiedTenantColumn(sql, t));
    forall t ensures t in UnscopedTablesIn(sql, tables) <==> IsDml(sql) && t in named && !TextPasses(sql, tables, t) {
      if t in named { OneNamed(sql, tables, t); }
    }
  }

  lemma PassesOnTokens(sql: string, tables: seq<string>, table: string)
    requires (forall t | t in tables :: IsName(t)) && table in tables
    ensures TextPasses(sql, tables, table) <==> TablePasses(Tokenize(sql), tables, table)
  {
    forall t | t in tables ensures NameIn(sql, t) <==> Names(Tokenize(sql), t) { NameInIsToken(sql, t); }
    NameInIsToken(sql, TENANT_COLUMN);
    QualifiedIsTokens(sql, table);
  }

  /**
   * The sentinel passes a statement exactly when it is not DML, or is knex's
   * own plumbing, or every provider-owned table among its words passes: the
   * only one with a `tenant_id` word, one of several with its own qualified one.
   * What it refuses are the tables that do not pass.
   */
  lemma VerdictIsOnTokens(sql: string, tables: seq<string>)
    requires Distinct(tables) && forall t | t in tables :: IsName(t)
    ensures forall t :: t in UnscopedTablesIn(sql, tables) <==>
      Judged(Tokenize(sql)) && t in tables && Names(Tokenize(sql), t) && !TablePasses(Tokenize(sql), tables, t)
  {
    JudgedIsTokens(sql);
    VerdictTableByTable(sql, tables);
    forall t | t in tables
      ensures NameIn(sql, t) <==> Names(Tokenize(sql), t)
      ensures TextPasses(sql, tables, t) <==> TablePasses(Tokenize(sql), tables, t)
    {
      NameInIsToken(sql, t);
      PassesOnTokens(sql, tables, t);
    }
  }

  // ----- What the helpers emit -----

  /** `"table"."tenant_id"`, as knex quotes it. */
  function Filtered(quote: char, table: string): string {
    [quote] + (table + ([quote, '.', quote] + (TENANT_COLUMN + [quote])))
  }

  /** The two quotes and the dot between a table and its column. */
  lemma QuotedColumnFollows(rest: string, quote: char)
    requires quote in CLOSING && quote in OPENING
    requires |rest| > 3 && rest[0] == quote && rest[1] == '.' && rest[2] == quote && StartsWithWord(rest[3..], TENANT_COLUMN)
    ensures TenantColumnFollows(rest)
  {
    var dot := rest[1..];
    assert SkipOne(rest, CLOSING) == dot && SkipSpaces(dot) == dot;
    assert dot[1..] == rest[2..] && SkipSpaces(rest[2..]) == rest[2..];
    assert rest[2..][1..] == rest[3..];
  }

  lemma PrefixParts(a: string, b: string, s: string)
    requires a + b <= s
    ensures a <= s && b <= s[|a|..]
  {
    assert s[..|a|] == (a + b)[..|a|] == a;
    assert s[|a|..][..|b|] == (a + b)[|a|..] == b;
  }

  /** Where the rendered filter stands, the table is followed by its column. */
  lemma FilterStands(s: string, quote: char, table: string)
    requires quote in CLOSING && quote in OPENING && Filtered(quote, table) <= s
    ensures |s| > 1 + |table| && s[0] == quote && QualifiedFirst(s[1..], table)
  {
    var column := TENANT_COLUMN + [quote];
    var tail := [quote, '.', quote] + column;
    PrefixParts([quote], table + tail, s);
    PrefixParts(table, tail, s[1..]);
    var rest := s[1..][|table|..];
    PrefixParts([quote, '.', quote], column, rest);
    PrefixParts(TENANT_COLUMN, [quote], rest[3..]);
    QuotedColumnFollows(rest, quote);
  }

  lemma QualifiedAt(sql: string, i: nat, table: string)
    requires i <= |sql| && Clear(sql, i) && QualifiedFirst(sql[i..], table)
    ensures QualifiedTenantColumn(sql, table)
  {
    FoundAt(sql, i, t => QualifiedFirst(t, table));
  }

  lemma FilterStandsAt(sql: string, i: nat, quote: char, table: string)
    requires quote in CLOSING && quote in OPENING && i <= |sql| && Filtered(quote, table) <= sql[i..]
    ensures i < |sql| && sql[i] == quote && QualifiedFirst(sql[i + 1..], table)
  {
    FilterStands(sql[i..], quote, table);
    assert sql[i..][1..] == sql[i + 1..] && sql[i..][0] == sql[i];
  }

  lemma FilteredIsQualified(sql: string, quote: char, table: string)
    requires quote in CLOSING && quote in OPENING && Contains(sql, Filtered(quote, table))
    ensures QualifiedTenantColumn(sql, table)
  {
    var i: nat :| i <= |sql| && Filtered(quote, table) <= sql[i..];
    FilterStandsAt(sql, i, quote, table);
    QualifiedAt(sql, i + 1, table);
  }

  lemma FoundAt(s: string, i: nat, p: string -> bool)
    requires i <= |s| && Clear(s, i) && p(s[i..])
    ensures Found(s, p)
  {
  }

  lemma {:induction false} SkippedSpacesAreTail(tokens: seq<Token>, t: Token)
    requires t in SkipSpaceTokens(tokens)
    ensures t in tokens
  {
    if tokens != [] && tokens[0].Sym? && IsSpace(tokens[0].c) { SkippedSpacesAreTail(tokens[1..], t); }
  }

  lemma ColumnTokenIsNamed(tokens: seq<Token>)
    requires TenantColumnToken(tokens)
    ensures Word(TENANT_COLUMN) in tokens
  {
    var dot := SkipSpaceTokens(SkipOneToken(tokens, CLOSING));
    assert Word(TENANT_COLUMN) in SkipSpaceTokens(dot[1..]);
    SkippedSpacesAreTail(dot[1..], Word(TENANT_COLUMN));
    SkippedSpacesAreTail(SkipOneToken(tokens, CLOSING), Word(TENANT_COLUMN));
  }

  lemma QualifiesIsNamed(tokens: seq<Token>, table: string)
    requires Qualifies(tokens, table)
    ensures Names(tokens, TENANT_COLUMN)
  {
    var j :| 0 <= j < |tokens| && tokens[j] == Word(table) && TenantColumnToken(tokens[j + 1..]);
    ColumnTokenIsNamed(tokens[j + 1..]);
    assert forall t | t in tokens[j + 1..] :: t in tokens;
  }

  /** The qualified column is also a `tenant_id` in the statement. */
  lemma QualifiedIsNamed(sql: string, table: string)
    requires QualifiedTenantColumn(sql, table) && IsName(table)
    ensures NameIn(sql, TENANT_COLUMN)
  {
    QualifiedIsTokens(sql, table);
    QualifiesIsNamed(Tokenize(sql), table);
    TenantColumnIsName();
    NameInIsToken(sql, TENANT_COLUMN);
  }

  lemma Inhabited<T>(s: seq<T>)
    ensures s == [] || exists x :: x in s
  {
    if s != [] { assert s[0] in s; }
  }

  lemma NoneRefused(sql: string, tables: seq<string>)
    requires Distinct(tables) && forall t | t in tables && NameIn(sql, t) :: TextPasses(sql, tables, t)
    ensures UnscopedTablesIn(sql, tables) == []
  {
    VerdictTableByTable(sql, tables);
    var refused := UnscopedTablesIn(sql, tables);
    Inhabited(refused);
  }

  /** However many provider-owned tables a statement names, it passes when each comes with the filter `tdb` adds. */
  lemma FilteredStatementsPass(sql: string, tables: seq<string>, quote: char)
    requires Distinct(tables) && (forall t | t in tables :: IsName(t)) && quote in CLOSING && quote in OPENING
    requires forall t | t in tables && NameIn(sql, t) :: Contains(sql, Filtered(quote, t))
    ensures UnscopedTablesIn(sql, tables) == []
  {
    forall t | t in tables && NameIn(sql, t) ensures TextPasses(sql, tables, t) {
      FilteredIsQualified(sql, quote, t);
      QualifiedIsNamed(sql, t);
    }
    NoneRefused(sql, tables);
  }

  /** An insert names the column in its list: with one provider-owned table in the statement, that is enough. */
  lemma StampedInsertsPass(sql: string, tables: seq<string>, table: string, quote: char)
    requires Distinct(tables) && !IsWord(quote)
    requires forall t | t in tables && NameIn(sql, t) :: t == table
    requires Contains(sql, [quote] + TENANT_COLUMN + [quote])
    ensures UnscopedTablesIn(sql, tables) == []
  {
    var i: nat :| i <= |sql| && [quote] + TENANT_COLUMN + [quote] <= sql[i..];
    assert [quote] + TENANT_COLUMN + [quote] == [quote] + (TENANT_COLUMN + [quote]);
    var column := TENANT_COLUMN + [quote];
    assert column <= sql[i + 1..];
    assert StartsWithWord(sql[i + 1..], TENANT_COLUMN) && Clear(sql, i + 1);
    NoneRefused(sql, tables);
  }
}

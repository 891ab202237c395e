/**
 * SQL text and its token stream: maximal runs of word characters, and every
 * other character on its own. What a pattern finds at a word boundary of the
 * text is what the token stream shows.
 */
module SqlText {
  import opened Prelude

  /** The `[A-Za-z0-9_]` of the patterns, which is also the `\w` behind their `\b`. */
  predicate IsWord(c: char) {
    'a' <= c <= 'z' || 'A' <= c <= 'Z' || '0' <= c <= '9' || c == '_'
  }

  predicate AllWord(s: string) {
    forall i | 0 <= i < |s| :: IsWord(s[i])
  }

  /** Something that can be a token: a table, a column, a keyword. */
  predicate IsName(s: string) {
    s != "" && AllWord(s)
  }

  datatype Token = Word(text: string) | Sym(c: char)

  function Run(s: string): (n: nat)
    ensures n <= |s| && AllWord(s[..n]) && (n == |s| || !IsWord(s[n]))
  {
    if s == "" || !IsWord(s[0]) then 0
    else
      var n := Run(s[1..]);
      assert s[..n + 1] == [s[0]] + s[1..][..n];
      n + 1
  }

  function Tokenize(s: string): seq<Token>
    decreases |s|
  {
    if s == "" then []
    else if IsWord(s[0]) then [Word(s[..Run(s)])] + Tokenize(s[Run(s)..])
    else [Sym(s[0])] + Tokenize(s[1..])
  }

  function Spell(t: Token): string {
    match t
    case Word(text) => text
    case Sym(c) => [c]
  }

  function Untokenize(tokens: seq<Token>): string {
    if tokens == [] then "" else Spell(tokens[0]) + Untokenize(tokens[1..])
  }

  /** The only run at the start of a text that is followed by a boundary is the longest one. */
  lemma {:induction false} RunIs(s: string, n: nat)
    requires n <= |s| && AllWord(s[..n]) && (n == |s| || !IsWord(s[n]))
    ensures Run(s) == n
  {
    if n > 0 {
      assert s[0] == s[..n][0];
      assert s[1..][..n - 1] == s[..n][1..];
      RunIs(s[1..], n - 1);
    }
  }

  // ----- Looking for something at every word, or after every symbol -----

  predicate WordStart(s: string, i: nat) {
    i < |s| && IsWord(s[i]) && (i == 0 || !IsWord(s[i - 1]))
  }

  /** A pattern that starts where a word does is found somewhere in the text. */
  ghost predicate AtSomeWord(s: string, p: string -> bool) {
    exists i: nat | i < |s| :: WordStart(s, i) && p(s[i..])
  }

  ghost predicate AtSomeToken(tokens: seq<Token>, q: seq<Token> -> bool) {
    exists j: nat | j < |tokens| :: tokens[j].Word? && q(tokens[j..])
  }

  /** A token may end at `n`: it is one character or a run of word characters, and no word goes on across its end. */
  predicate TokenEnds(s: string, n: nat) {
    0 < n <= |s| && (n > 1 ==> forall i | 0 <= i < n :: IsWord(s[i])) && (n < |s| && IsWord(s[n]) ==> !IsWord(s[n - 1]))
  }

  /** The length of the token a text starts with. */
  function First(s: string): (n: nat)
    requires s != ""
    ensures 0 < n <= |s|
    ensures Tokenize(s)[1..] == Tokenize(s[n..])
    ensures TokenEnds(s, n)
  {
    var n := if IsWord(s[0]) then Run(s) else 1;
    assert forall i | 0 <= i < Run(s) :: s[..Run(s)][i] == s[i];
    n
  }

  lemma FirstToken(s: string)
    requires s != ""
    ensures Tokenize(s) == [if IsWord(s[0]) then Word(s[..First(s)]) else Sym(s[0])] + Tokenize(s[First(s)..])
  {
  }

  lemma UntokenizeCons(first: Token, rest: seq<Token>)
    ensures Untokenize([first] + rest) == Spell(first) + Untokenize(rest)
  {
    assert ([first] + rest)[1..] == rest;
  }

  /** Nothing is lost: the tokens spell the text. */
  lemma {:induction false} TokenizeSpells(s: string)
    ensures Untokenize(Tokenize(s)) == s
    decreases |s|
  {
    if s != "" {
      var n := First(s);
      var first := if IsWord(s[0]) then Word(s[..n]) else Sym(s[0]);
      TokenizeSpells(s[n..]);
      FirstToken(s);
      UntokenizeCons(first, Tokenize(s[n..]));
      SpellsFirst(s);
    }
  }

  lemma SpellsFirst(s: string)
    requires s != ""
    ensures Spell(if IsWord(s[0]) then Word(s[..First(s)]) else Sym(s[0])) + s[First(s)..] == s
  {
  }

  lemma WordStartAfter(s: string, n: nat, i: nat)
    requires TokenEnds(s, n) && 0 < i < |s| && WordStart(s, i)
    ensures i >= n && WordStart(s[n..], i - n)
  {
  }

  /** A word of what follows a token is a word of the whole. */
  lemma FoundInRest(s: string, n: nat, p: string -> bool)
    requires TokenEnds(s, n) && AtSomeWord(s[n..], p)
    ensures AtSomeWord(s, p)
  {
    var rest := s[n..];
    var i: nat :| i < |rest| && WordStart(rest, i) && p(rest[i..]);
    var k := n + i;
    assert s[k] == rest[i] && (i > 0 ==> s[k - 1] == rest[i - 1]);
    assert s[k..] == rest[i..];
    assert WordStart(s, k) && p(s[k..]);
  }

  lemma FoundFirstOrInRest(s: string, n: nat, p: string -> bool)
    requires TokenEnds(s, n) && AtSomeWord(s, p) && !(IsWord(s[0]) && p(s))
    ensures AtSomeWord(s[n..], p)
  {
    var rest := s[n..];
    assert s[0..] == s;
    var i: nat :| i < |s| && WordStart(s, i) && p(s[i..]);
    WordStartAfter(s, n, i);
    assert rest[i - n..] == s[i..];
    assert WordStart(rest, i - n);
  }

  lemma AtSomeWordSplits(s: string, p: string -> bool)
    requires s != ""
    ensures AtSomeWord(s, p) <==> (IsWord(s[0]) && p(s)) || AtSomeWord(s[First(s)..], p)
  {
    if IsWord(s[0]) && p(s) {
      assert s[0..] == s;
      assert WordStart(s, 0);
    } else if AtSomeWord(s, p) {
      FoundFirstOrInRest(s, First(s), p);
    }
    if AtSomeWord(s[First(s)..], p) {
      FoundInRest(s, First(s), p);
    }
  }

  lemma AtSomeTokenSplits(tokens: seq<Token>, q: seq<Token> -> bool)
    requires tokens != []
    ensures AtSomeToken(tokens, q) <==> (tokens[0].Word? && q(tokens)) || AtSomeToken(tokens[1..], q)
  {
    assert tokens[0..] == tokens;
    if AtSomeToken(tokens, q) {
      var j: nat :| j < |tokens| && tokens[j].Word? && q(tokens[j..]);
      if j > 0 {
        assert tokens[1..][j - 1].Word? && tokens[1..][j - 1..] == tokens[j..];
      }
    }
    if tokens[0].Word? && q(tokens) {
      assert tokens[0].Word? && q(tokens[0..]);
    }
    if AtSomeToken(tokens[1..], q) {
      var j: nat :| j < |tokens[1..]| && tokens[1..][j].Word? && q(tokens[1..][j..]);
      assert tokens[j + 1].Word? && tokens[j + 1..] == tokens[1..][j..];
    }
  }

  /** A pattern that says of a text what another says of its tokens is found at the same words. */
  lemma {:induction false} WordsAreTokens(s: string, p: string -> bool, q: seq<Token> -> bool)
    requires forall t: string | t != "" && IsWord(t[0]) :: p(t) == q(Tokenize(t))
    ensures AtSomeWord(s, p) <==> AtSomeToken(Tokenize(s), q)
    decreases |s|
  {
    if s != "" {
      WordsAreTokens(s[First(s)..], p, q);
      AtSomeWordSplits(s, p);
      AtSomeTokenSplits(Tokenize(s), q);
    }
  }

  /** What follows some occurrence of a symbol. */
  ghost predicate AfterSome(s: string, c: char, p: string -> bool) {
    exists i: nat | i < |s| :: s[i] == c && p(s[i + 1..])
  }

  ghost predicate AfterSomeToken(tokens: seq<Token>, c: char, q: seq<Token> -> bool) {
    exists j: nat | j < |tokens| :: tokens[j] == Sym(c) && q(tokens[j + 1..])
  }

  lemma AfterInRest(s: string, n: nat, c: char, p: string -> bool)
    requires n <= |s| && AfterSome(s[n..], c, p)
    ensures AfterSome(s, c, p)
  {
    var rest := s[n..];
    var i: nat :| i < |rest| && rest[i] == c && p(rest[i + 1..]);
    assert s[n + i + 1..] == rest[i + 1..];
    assert s[n + i] == c;
  }

  /** A symbol that is not the first character comes after the first token. */
  lemma AfterFirstOrInRest(s: string, n: nat, c: char, p: string -> bool)
    requires TokenEnds(s, n) && !IsWord(c) && AfterSome(s, c, p) && !(s[0] == c && p(s[1..]))
    ensures AfterSome(s[n..], c, p)
  {
    var rest := s[n..];
    var i: nat :| i < |s| && s[i] == c && p(s[i + 1..]);
    assert i >= n;
    assert rest[i - n + 1..] == s[i + 1..];
    assert rest[i - n] == c;
  }

  lemma AfterSomeSplits(s: string, c: char, p: string -> bool)
    requires s != "" && !IsWord(c)
    ensures AfterSome(s, c, p) <==> (s[0] == c && p(s[1..])) || AfterSome(s[First(s)..], c, p)
  {
    if s[0] == c && p(s[1..]) {
      assert s[0] == c && p(s[0 + 1..]);
    } else if AfterSome(s, c, p) {
      AfterFirstOrInRest(s, First(s), c, p);
    }
    if AfterSome(s[First(s)..], c, p) {
      AfterInRest(s, First(s), c, p);
    }
  }

  lemma AfterSomeTokenSplits(tokens: seq<Token>, c: char, q: seq<Token> -> bool)
    requires tokens != []
    ensures AfterSomeToken(tokens, c, q) <==> (tokens[0] == Sym(c) && q(tokens[1..])) || AfterSomeToken(tokens[1..], c, q)
  {
    if AfterSomeToken(tokens, c, q) {
      var j: nat :| j < |tokens| && tokens[j] == Sym(c) && q(tokens[j + 1..]);
      if j > 0 {
        assert tokens[1..][j - 1] == Sym(c) && tokens[1..][j - 1 + 1..] == tokens[j + 1..];
      }
    }
    if tokens[0] == Sym(c) && q(tokens[1..]) {
      assert tokens[0] == Sym(c) && q(tokens[0 + 1..]);
    }
    if AfterSomeToken(tokens[1..], c, q) {
      var j: nat :| j < |tokens[1..]| && tokens[1..][j] == Sym(c) && q(tokens[1..][j + 1..]);
      assert tokens[j + 1] == Sym(c) && tokens[j + 1 + 1..] == tokens[1..][j + 1..];
    }
  }

  lemma {:induction false} SymbolsAreTokens(s: string, c: char, p: string -> bool, q: seq<Token> -> bool)
    requires !IsWord(c) && forall t: string :: p(t) == q(Tokenize(t))
    ensures AfterSome(s, c, p) <==> AfterSomeToken(Tokenize(s), c, q)
    decreases |s|
  {
    if s != "" {
      SymbolsAreTokens(s[First(s)..], c, p, q);
      AfterSomeSplits(s, c, p);
      AfterSomeTokenSplits(Tokenize(s), c, q);
    }
  }

  // ----- Optional spaces -----

  function SkipSpaces(s: string): string {
    if s != "" && IsSpace(s[0]) then SkipSpaces(s[1..]) else s
  }

  function SkipSpaceTokens(tokens: seq<Token>): seq<Token> {
    if tokens != [] && tokens[0].Sym? && IsSpace(tokens[0].c) then SkipSpaceTokens(tokens[1..]) else tokens
  }

  lemma {:induction false} SkippingCommutes(s: string)
    ensures Tokenize(SkipSpaces(s)) == SkipSpaceTokens(Tokenize(s))
  {
    if s != "" && IsSpace(s[0]) { SkippingCommutes(s[1..]); }
  }

  // ----- A word of the text, and a word at its start -----

  predicate StartsWithWord(t: string, name: string) {
    name <= t && (|t| == |name| || !IsWord(t[|name|]))
  }

  lemma StartIsFirstToken(t: string, name: string)
    requires IsName(name)
    ensures StartsWithWord(t, name) <==> Tokenize(t) != [] && Tokenize(t)[0] == Word(name)
    ensures StartsWithWord(t, name) ==> Tokenize(t[|name|..]) == Tokenize(t)[1..]
  {
    if StartsWithWord(t, name) {
      assert t[..|name|] == name;
      assert t[0] == name[0];
      RunIs(t, |name|);
    }
    if t != "" && IsWord(t[0]) && t[..Run(t)] == name {
      assert name <= t;
    }
  }
}

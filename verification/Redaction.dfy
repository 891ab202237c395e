/**
 * The redactor of `asaas-sandbox-e2e.js`: known secrets are cut out of a text
 * one after another, each by splitting at it and joining with a mark.
 */
module Redaction {
  import opened Prelude

  const MARK := "[redacted]"

  type Secret = x: string | x != "" witness "secret"

  /** `String.prototype.split`: the pieces between the leftmost occurrences, never overlapping. */
  function Split(s: string, x: Secret): (pieces: seq<string>)
    ensures pieces != []
    decreases |s|
  {
    if x <= s then [""] + Split(s[|x|..], x)
    else if s == "" then [""]
    else
      var rest := Split(s[1..], x);
      [[s[0]] + rest[0]] + rest[1..]
  }

  function Join(pieces: seq<string>, mark: string): string
    requires pieces != []
  {
    if |pieces| == 1 then pieces[0] else pieces[0] + mark + Join(pieces[1..], mark)
  }

  /** One secret taken out. */
  function Cut(s: string, x: Secret): string {
    if Contains(s, x) then Join(Split(s, x), MARK) else s
  }

  /** `limpar`: the secrets in the order the set keeps them. */
  function Redact(secrets: seq<Secret>, s: string): string {
    if secrets == [] then s else Redact(secrets[1..], Cut(s, secrets[0]))
  }

  function TrimStart(s: string): string {
    if s != "" && IsSpace(s[0]) then TrimStart(s[1..]) else s
  }

  function TrimEnd(s: string): string {
    if s != "" && IsSpace(s[|s| - 1]) then TrimEnd(s[..|s| - 1]) else s
  }

  function Trim(s: string): string {
    TrimEnd(TrimStart(s))
  }

  /** What trimming keeps: everything from the first character that is not white space to the last. */
  lemma TrimKeepsCore(s: string) returns (a: nat, b: nat)
    ensures a <= b <= |s| && Trim(s) == s[a..b]
    ensures forall k | 0 <= k < a || b <= k < |s| :: IsSpace(s[k])
    ensures a < b ==> !IsSpace(s[a]) && !IsSpace(s[b - 1])
  {
    a := TrimStartCuts(s);
    var e := TrimEndCuts(TrimStart(s));
    b := a + e;
    forall k | b <= k < |s| ensures IsSpace(s[k]) {
      assert s[k] == TrimStart(s)[k - a];
    }
  }

  lemma {:induction false} TrimStartCuts(s: string) returns (a: nat)
    ensures a <= |s| && TrimStart(s) == s[a..]
    ensures forall k | 0 <= k < a :: IsSpace(s[k])
    ensures a < |s| ==> !IsSpace(s[a])
  {
    a := 0;
    if s != "" && IsSpace(s[0]) {
      var rest := TrimStartCuts(s[1..]);
      a := rest + 1;
      forall k | 0 <= k < a ensures IsSpace(s[k]) {
        if k > 0 { assert s[k] == s[1..][k - 1]; }
      }
    }
  }

  lemma {:induction false} TrimEndCuts(s: string) returns (b: nat)
    ensures b <= |s| && TrimEnd(s) == s[..b]
    ensures forall k | b <= k < |s| :: IsSpace(s[k])
    ensures b > 0 ==> !IsSpace(s[b - 1])
  {
    b := |s|;
    if s != "" && IsSpace(s[|s| - 1]) {
      b := TrimEndCuts(s[..|s| - 1]);
    }
  }

  class Redactor {
    var secrets: seq<Secret>

    ghost predicate Valid()
      reads this
    {
      Distinct(secrets) && forall x | x in secrets :: |x| >= 6
    }

    constructor ()
      ensures Valid() && secrets == []
    {
      secrets := [];
    }

    /** `guardarSegredo`. */
    method Keep(value: string)
      requires Valid()
      modifies this
      ensures Valid()
      ensures var x := Trim(value);
        secrets == if |x| >= 6 && x !in old(secrets) then old(secrets) + [x] else old(secrets)
    {
      var x := Trim(value);
      if |x| >= 6 && x !in secrets {
        secrets := secrets + [x];
      }
    }

    /** `limpar`. */
    method Clean(text: string) returns (result: string)
      requires Valid()
      ensures result == Redact(secrets, text)
      ensures (forall x | x in secrets :: !Clashes(x)) ==> forall x | x in secrets :: !Contains(result, x)
    {
      result := text;
      for i := 0 to |secrets|
        invariant Redact(secrets[i..], result) == Redact(secrets, text)
      {
        assert secrets[i..][0] == secrets[i] && secrets[i..][1..] == secrets[i + 1..];
        if Contains(result, secrets[i]) {
          result := Join(Split(result, secrets[i]), MARK);
        }
      }
      if forall x | x in secrets :: !Clashes(x) { RedactedIsClean(secrets, text); }
    }
  }

  // ----- Splitting -----

  lemma JoinHead(pieces: seq<string>, c: char, mark: string)
    requires pieces != []
    ensures Join([[c] + pieces[0]] + pieces[1..], mark) == [c] + Join(pieces, mark)
  {
    var longer := [[c] + pieces[0]] + pieces[1..];
    assert longer[1..] == pieces[1..];
    if |pieces| > 1 {
      var rest := mark + Join(pieces[1..], mark);
      assert pieces[0] + mark + Join(pieces[1..], mark) == pieces[0] + rest;
      assert ([c] + pieces[0]) + mark + Join(pieces[1..], mark) == ([c] + pieces[0]) + rest;
    }
  }

  /** Splitting loses nothing: joined again with what it was split at, the text is back. */
  lemma {:induction false} SplitJoins(s: string, x: Secret)
    ensures Join(Split(s, x), x) == s
    decreases |s|
  {
    if x <= s {
      SplitJoins(s[|x|..], x);
      assert s == x + s[|x|..];
    } else if s != "" {
      SplitJoins(s[1..], x);
      JoinHead(Split(s[1..], x), s[0], x);
      assert s == [s[0]] + s[1..];
    }
  }

  /** No piece holds the text it was split at, and every piece was in the text. */
  lemma {:induction false} PiecesAreClean(s: string, x: Secret)
    ensures forall p | p in Split(s, x) :: !Contains(p, x) && Contains(s, p)
    ensures Split(s, x)[0] <= s
    decreases |s|
  {
    if x <= s {
      PiecesAreClean(s[|x|..], x);
      forall p | p in Split(s[|x|..], x) ensures Contains(s, p) {
        PartOfTail(s, |x|, p);
      }
      assert "" <= s[0..];
    } else if s != "" {
      PiecesAreClean(s[1..], x);
      var rest := Split(s[1..], x);
      var first := [s[0]] + rest[0];
      assert first <= s[0..];
      forall p | p in rest ensures Contains(s, p) {
        PartOfTail(s, 1, p);
      }
      assert rest[0] in rest && first <= s;
      forall i | 0 <= i <= |first| ensures !(x <= first[i..]) {
        if i > 0 { assert first[i..] == rest[0][i - 1..]; } else { assert first[0..] == first; }
      }
    }
  }

  lemma PartOfTail(s: string, n: nat, p: string)
    requires n <= |s| && Contains(s[n..], p)
    ensures Contains(s, p)
  {
    var i :| 0 <= i <= |s[n..]| && p <= s[n..][i..];
    assert s[n..][i..] == s[n + i..];
  }

  // ----- Secrets that clash with the mark -----

  /** Laid over the mark `d` places from its start, the secret agrees with it wherever they overlap. */
  predicate AgreesAt(x: string, d: int) {
    forall k | 0 <= k < |x| && 0 <= k + d < |MARK| :: x[k] == MARK[k + d]
  }

  /** Some overlap with the mark is possible. */
  predicate Clashes(x: string) {
    exists d | -|x| < d < |MARK| :: AgreesAt(x, d)
  }

  predicate BracketFree(x: string) {
    '[' !in x && ']' !in x
  }

  lemma AgreesInside(x: string, d: int)
    requires AgreesAt(x, d) && 0 <= d && d + |x| <= |MARK|
    ensures Contains(MARK, x)
  {
    forall k | 0 <= k < |x| ensures x[k] == MARK[d..][k] {
      assert x[k] == MARK[k + d];
    }
    assert x <= MARK[d..];
  }

  lemma BracketFreeStaysInside(x: string, d: int)
    requires BracketFree(x) && AgreesAt(x, d) && -|x| < d < |MARK|
    ensures 0 <= d && d + |x| <= |MARK|
  {
    assert MARK[0] == '[' && MARK[|MARK| - 1] == ']';
    assert forall k | 0 <= k < |x| :: x[k] in x;
    if d < 0 { FirstAgrees(x, d, -d); }
    if d + |x| > |MARK| { FirstAgrees(x, d, |MARK| - 1 - d); }
  }

  lemma FirstAgrees(x: string, d: int, k: int)
    requires AgreesAt(x, d) && 0 <= k < |x| && 0 <= k + d < |MARK|
    ensures x[k] == MARK[k + d]
  {
  }

  /** A secret without brackets clashes with the mark only by being part of it. */
  lemma BracketFreeClash(x: string)
    requires BracketFree(x) && x != ""
    ensures Clashes(x) <==> Contains(MARK, x)
  {
    if d :| -|x| < d < |MARK| && AgreesAt(x, d) {
      BracketFreeStaysInside(x, d);
      AgreesInside(x, d);
    }
    if d :| 0 <= d <= |MARK| && x <= MARK[d..] {
      assert AgreesAt(x, d) && -|x| < d < |MARK|;
    }
  }

  lemma OverlapClashes(head: string, tail: string, x: string, i: nat)
    requires i <= |head + MARK + tail| && x <= (head + MARK + tail)[i..]
    requires i < |head| + |MARK| && |head| < i + |x|
    ensures AgreesAt(x, i - |head|) && Clashes(x)
  {
    var s := head + MARK + tail;
    var d := i - |head|;
    forall k | 0 <= k < |x| && 0 <= k + d < |MARK| ensures x[k] == MARK[k + d] {
      assert x[k] == s[i..][k] == s[i + k];
    }
    assert AgreesAt(x, d);
  }

  /** A part of a joined text that cannot overlap the mark is part of one piece. */
  lemma {:induction false} JoinedPart(pieces: seq<string>, x: Secret)
    requires pieces != [] && Contains(Join(pieces, MARK), x)
    ensures Clashes(x) || exists p | p in pieces :: Contains(p, x)
  {
    if |pieces| == 1 {
      assert pieces[0] in pieces;
    } else {
      var s := Join(pieces, MARK);
      var head := pieces[0];
      var tail := Join(pieces[1..], MARK);
      var i :| 0 <= i <= |s| && x <= s[i..];
      if i + |x| <= |head| {
        BeforeTheMark(head, tail, x, i);
        assert head in pieces;
      } else if i >= |head| + |MARK| {
        BehindTheMark(head, tail, x, i);
        JoinedPart(pieces[1..], x);
      } else {
        OverlapClashes(head, tail, x, i);
      }
    }
  }

  /** Taking one secret out never puts another in. */
  lemma CutAddsNothing(s: string, x: Secret, y: Secret)
    requires !Clashes(y) && Contains(Cut(s, x), y)
    ensures Contains(s, y) && y != x
  {
    PiecesAreClean(s, x);
    if Contains(s, x) {
      JoinedPart(Split(s, x), y);
      var p :| p in Split(s, x) && Contains(p, y);
      PartOfPart(s, p, y);
    }
  }

  lemma PartOfPart(s: string, p: string, y: string)
    requires Contains(s, p) && Contains(p, y)
    ensures Contains(s, y)
  {
    var i :| 0 <= i <= |s| && p <= s[i..];
    var j :| 0 <= j <= |p| && y <= p[j..];
    var at := i + j;
    forall k | 0 <= k < |y| ensures s[at + k] == y[k] {
      assert p[j + k] == p[j..][k] == y[k];
      assert s[at + k] == s[i..][j + k] == p[j + k];
    }
    assert y == s[at..][..|y|];
  }

  lemma {:induction false} RedactAddsNothing(secrets: seq<Secret>, s: string, y: Secret)
    requires !Clashes(y) && Contains(Redact(secrets, s), y)
    ensures Contains(s, y) && y !in secrets
  {
    if secrets != [] {
      RedactAddsNothing(secrets[1..], Cut(s, secrets[0]), y);
      CutAddsNothing(s, secrets[0], y);
    }
  }

  /** When no secret can overlap the mark, no secret is left, whatever the text and the order. */
  lemma RedactedIsClean(secrets: seq<Secret>, s: string)
    requires forall x | x in secrets :: !Clashes(x)
    ensures forall x | x in secrets :: !Contains(Redact(secrets, s), x)
  {
    forall x | x in secrets ensures !Contains(Redact(secrets, s), x) {
      if Contains(Redact(secrets, s), x) { RedactAddsNothing(secrets, s, x); }
    }
  }

  // ----- Exactly when -----

  lemma JoinHoldsMark(pieces: seq<string>)
    requires |pieces| > 1
    ensures Contains(Join(pieces, MARK), MARK)
  {
    var head, tail := pieces[0], Join(pieces[1..], MARK);
    assert head + MARK + tail == head + (MARK + tail);
    assert (head + (MARK + tail))[|head|..] == MARK + tail;
    assert MARK <= (head + MARK + tail)[|head|..];
  }

  lemma {:induction false} ContainingSplits(s: string, x: Secret)
    requires Contains(s, x)
    ensures |Split(s, x)| > 1
    decreases |s|
  {
    if !(x <= s) {
      var i :| 0 <= i <= |s| && x <= s[i..];
      assert s[0..] == s;
      assert s[1..][i - 1..] == s[i..];
      ContainingSplits(s[1..], x);
    }
  }

  /** Once a mark is in, a mark stays in. */
  lemma {:induction false} MarkStays(secrets: seq<Secret>, s: string)
    requires Contains(s, MARK)
    ensures Contains(Redact(secrets, s), MARK)
  {
    if secrets != [] {
      var x := secrets[0];
      if Contains(s, x) {
        ContainingSplits(s, x);
        JoinHoldsMark(Split(s, x));
      }
      MarkStays(secrets[1..], Cut(s, x));
    }
  }

  /** A text that is itself a secret ends with a mark in it. */
  lemma {:induction false} SecretLeavesMark(secrets: seq<Secret>, x: Secret)
    requires x in secrets
    ensures Contains(Redact(secrets, x), MARK)
  {
    var first := secrets[0];
    if Contains(x, first) {
      ContainingSplits(x, first);
      JoinHoldsMark(Split(x, first));
      MarkStays(secrets[1..], Cut(x, first));
    } else {
      assert x <= x[0..];
      SecretLeavesMark(secrets[1..], x);
    }
  }

  ghost predicate AlwaysClean(secrets: seq<Secret>) {
    forall s: string, x | x in secrets :: !Contains(Redact(secrets, s), x)
  }

  /**
   * For secrets without brackets the redactor leaves none behind, in any text,
   * if and only if none of them is part of the mark. (Of the texts of six
   * characters or more, those are the six cut from its word.)
   */
  lemma CleanIff(secrets: seq<Secret>)
    requires forall x | x in secrets :: BracketFree(x)
    ensures AlwaysClean(secrets) <==> forall x | x in secrets :: !Contains(MARK, x)
  {
    if forall x | x in secrets :: !Contains(MARK, x) {
      forall x | x in secrets ensures !Clashes(x) { BracketFreeClash(x); }
      forall s: string, x | x in secrets ensures !Contains(Redact(secrets, s), x) {
        RedactedIsClean(secrets, s);
      }
    } else {
      var x :| x in secrets && Contains(MARK, x);
      SecretLeavesMark(secrets, x);
      PartOfPart(Redact(secrets, x), MARK, x);
    }
  }

  // ----- Exactly when, for one secret of any characters -----

  /** Behind its own first `k` characters the secret would be met before it begins. */
  predicate MetEarlier(x: string, k: nat)
    requires k <= |x|
  {
    exists j | 0 <= j < k :: x <= (x[..k] + x)[j..]
  }

  /** A place over the mark where what is left of a text can complete the secret again. */
  predicate CompletesAt(x: string, d: int)
    requires -|x| < d
  {
    AgreesAt(x, d) && (d < 0 ==> !MetEarlier(x, -d))
  }

  predicate CanComeBack(x: string) {
    exists d | -|x| < d < |MARK| :: CompletesAt(x, d)
  }

  /** The secret is met first behind `n` characters. */
  predicate FirstMet(s: string, x: string, n: nat) {
    n <= |s| && x <= s[n..] && forall j | 0 <= j < n :: !(x <= s[j..])
  }

  lemma FirstMetNext(s: string, x: Secret, n: nat)
    requires s != "" && !(x <= s) && FirstMet(s[1..], x, n)
    ensures FirstMet(s, x, n + 1)
  {
    assert s[1..][n..] == s[n + 1..];
    forall j | 0 <= j < n + 1 ensures !(x <= s[j..]) {
      if j > 0 { assert s[j..] == s[1..][j - 1..]; } else { assert s[0..] == s; }
    }
  }

  /** These are the pieces of a text in which the secret is first met behind `n` characters. */
  predicate CutAt(pieces: seq<string>, s: string, x: Secret, n: nat) {
    FirstMet(s, x, n) && n + |x| <= |s| && pieces == [s[..n]] + Split(s[n + |x|..], x)
  }

  lemma CutAtNext(pieces: seq<string>, s: string, x: Secret, n: nat)
    requires s != "" && !(x <= s) && CutAt(pieces, s[1..], x, n)
    ensures CutAt([[s[0]] + pieces[0]] + pieces[1..], s, x, n + 1)
  {
    FirstMetNext(s, x, n);
    assert s[1..][n + |x|..] == s[n + 1 + |x|..];
    assert [s[0]] + s[1..][..n] == s[..n + 1];
    assert pieces[1..] == Split(s[n + 1 + |x|..], x);
  }

  /** The first piece ends where the secret is first met, and the others are those of the text behind it. */
  lemma {:induction false} FirstPiece(s: string, x: Secret) returns (n: nat)
    requires |Split(s, x)| > 1
    ensures CutAt(Split(s, x), s, x, n)
    decreases |s|
  {
    n := 0;
    if x <= s {
      assert s[0..] == s && s[..0] == "";
    } else if s != "" {
      var rest := Split(s[1..], x);
      var m := FirstPiece(s[1..], x);
      n := m + 1;
      CutAtNext(rest, s, x, m);
    }
  }

  lemma PieceAndSecret(s: string, x: Secret, n: nat)
    requires n <= |s| && x <= s[n..]
    ensures s[..n] + x <= s
  {
    assert s == s[..n] + s[n..];
  }

  /** Met behind part of a piece, it is met in the text the piece came from. */
  lemma MetInText(s: string, p: string, x: Secret, i: nat, j: nat)
    requires p + x <= s && i <= |p| && j <= |p| - i && x <= (p[i..] + x)[j..]
    ensures x <= s[i + j..]
  {
    forall h | 0 <= h < |x| ensures x[h] == s[i + j + h] {
      assert x[h] == (p[i..] + x)[j..][h] == (p[i..] + x)[j + h];
      assert (p + x)[i + j + h] == s[i + j + h];
    }
    assert x == s[i + j..][..|x|];
  }

  /** Cutting puts one mark for each place where the secret is met, and nothing else is lost or moved. */
  lemma CutMeaning(s: string, x: Secret, n: nat)
    requires FirstMet(s, x, n) && n + |x| <= |s|
    ensures Cut(s, x) == s[..n] + "[redacted]" + Cut(s[n + |x|..], x)
  {
    ContainingSplits(s, x);
    var m := FirstPiece(s, x);
    OnlyOneFirst(s, x, m, n);
    CutIsJoin(s, x);
    CutIsJoin(s[n + |x|..], x);
    JoinFirst(s[..n], Split(s[n + |x|..], x));
  }

  lemma CutIsJoin(s: string, x: Secret)
    ensures Cut(s, x) == Join(Split(s, x), "[redacted]")
  {
    if !Contains(s, x) { SplitOfOther(s, x); }
  }

  lemma JoinFirst(first: string, pieces: seq<string>)
    requires pieces != []
    ensures Join([first] + pieces, "[redacted]") == first + "[redacted]" + Join(pieces, "[redacted]")
  {
    assert ([first] + pieces)[1..] == pieces;
  }

  lemma OnlyOneFirst(s: string, x: Secret, m: nat, n: nat)
    requires FirstMet(s, x, m) && FirstMet(s, x, n)
    ensures m == n
  {
  }

  /** A text that does not hold the secret is one piece. */
  lemma {:induction false} SplitOfOther(s: string, x: Secret)
    requires !Contains(s, x)
    ensures Split(s, x) == [s]
    decreases |s|
  {
    assert s[0..] == s;
    if s != "" {
      if Contains(s[1..], x) { PartOfTail(s, 1, x); }
      SplitOfOther(s[1..], x);
      assert [s[0]] + s[1..] == s;
    }
  }

  /** What the secret overhangs on the left is the end of a piece, so it could not have been met there. */
  lemma OverhangIsFirst(s: string, p: string, tail: string, x: Secret, i: nat)
    requires p + x <= s && FirstMet(s, x, |p|)
    requires i < |p| < i + |x| && x <= (p + MARK + tail)[i..]
    ensures !MetEarlier(x, |p| - i)
  {
    var k := |p| - i;
    forall h | 0 <= h < k ensures x[..k][h] == p[i + h] {
      assert x[h] == (p + MARK + tail)[i..][h] == (p + MARK + tail)[i + h];
    }
    assert x[..k] == p[i..];
    if j :| 0 <= j < k && x <= (x[..k] + x)[j..] { MetInText(s, p, x, i, j); }
  }

  /** A secret in neither part of a joined text lies over the mark between them. */
  lemma OverTheMark(p: string, tail: string, x: Secret) returns (i: nat)
    requires Contains(p + MARK + tail, x) && !Contains(p, x) && !Contains(tail, x)
    ensures i <= |p + MARK + tail| && x <= (p + MARK + tail)[i..]
    ensures i < |p| + |MARK| && |p| < i + |x|
  {
    var joined := p + MARK + tail;
    i :| 0 <= i <= |joined| && x <= joined[i..];
    if i + |x| <= |p| { BeforeTheMark(p, tail, x, i); }
    if i >= |p| + |MARK| { BehindTheMark(p, tail, x, i); }
  }

  lemma BeforeTheMark(p: string, tail: string, x: Secret, i: nat)
    requires i + |x| <= |p| && x <= (p + MARK + tail)[i..]
    ensures Contains(p, x)
  {
    assert p[i..] == (p + MARK + tail)[i..][..|p| - i];
    assert x <= p[i..];
  }

  lemma BehindTheMark(p: string, tail: string, x: Secret, i: nat)
    requires |p| + |MARK| <= i <= |p + MARK + tail| && x <= (p + MARK + tail)[i..]
    ensures Contains(tail, x)
  {
    assert tail[i - |p| - |MARK|..] == (p + MARK + tail)[i..];
  }

  lemma {:induction false} ComesBackOnlyThere(s: string, x: Secret)
    requires Contains(Join(Split(s, x), MARK), x)
    ensures CanComeBack(x)
    decreases |s|
  {
    PiecesAreClean(s, x);
    if |Split(s, x)| > 1 {
      var n := FirstPiece(s, x);
      var p, rest := s[..n], Split(s[n + |x|..], x);
      assert ([p] + rest)[1..] == rest;
      if Contains(Join(rest, MARK), x) {
        ComesBackOnlyThere(s[n + |x|..], x);
      } else {
        assert Split(s, x)[0] == p;
        PieceComesBack(s, x, n, Join(rest, MARK));
      }
    }
  }

  lemma PieceComesBack(s: string, x: Secret, n: nat, tail: string)
    requires FirstMet(s, x, n) && !Contains(s[..n], x) && !Contains(tail, x) && Contains(s[..n] + MARK + tail, x)
    ensures CanComeBack(x)
  {
    var p := s[..n];
    PieceAndSecret(s, x, n);
    var i := OverTheMark(p, tail, x);
    OverlapClashes(p, tail, x, i);
    if i < |p| { OverhangIsFirst(s, p, tail, x, i); }
    assert CompletesAt(x, i - |p|);
  }

  lemma {:induction false} SplitOfClean(s: string, x: Secret)
    requires |s| < |x|
    ensures Split(s, x) == [s]
    decreases |s|
  {
    if s != "" {
      SplitOfClean(s[1..], x);
      assert [s[0]] + s[1..] == s;
    }
  }

  lemma JoinTwo(u: string, v: string)
    ensures Join([u, v], MARK) == u + MARK + v
  {
    assert [u, v][1..] == [v];
  }

  lemma {:induction false} SplitAtFirst(u: string, x: Secret, v: string)
    requires |v| < |x| && FirstMet(u + x + v, x, |u|)
    ensures Split(u + x + v, x) == [u, v]
    decreases |u|
  {
    var s := u + x + v;
    if u == "" {
      assert s == x + v && s[|x|..] == v;
      SplitOfClean(v, x);
    } else {
      assert s[1..] == u[1..] + x + v && s[0..] == s && s[0] == u[0];
      assert FirstMet(s[1..], x, |u| - 1) by { FirstMetBefore(s, x, |u|); }
      SplitAtFirst(u[1..], x, v);
      assert [u[0]] + u[1..] == u;
    }
  }

  lemma FirstMetBefore(s: string, x: Secret, n: nat)
    requires n > 0 && FirstMet(s, x, n)
    ensures FirstMet(s[1..], x, n - 1)
  {
    assert s[1..][n - 1..] == s[n..];
    forall j | 0 <= j < n - 1 ensures !(x <= s[1..][j..]) { assert s[1..][j..] == s[j + 1..]; }
  }

  /** A text to try: what overhangs the mark on the left, the secret, and what overhangs it on the right. */
  function AroundTheMark(x: Secret, d: int): string
    requires -|x| < d < |MARK|
  {
    x[..Left(d)] + x + Right(x, d)
  }

  function Left(d: int): nat {
    if d < 0 then -d else 0
  }

  function Right(x: Secret, d: int): string
    requires -|x| < d < |MARK|
  {
    if d + |x| > |MARK| then x[|MARK| - d..] else ""
  }

  /** The mark between the two overhangs completes the secret. */
  lemma MarkCompletes(x: Secret, d: int)
    requires -|x| < d < |MARK| && AgreesAt(x, d)
    ensures Contains(x[..Left(d)] + MARK + Right(x, d), x)
  {
    var u, v := x[..Left(d)], Right(x, d);
    var joined, at := u + MARK + v, Left(d) + d;
    forall h | 0 <= h < |x| ensures at + h < |joined| && x[h] == joined[at + h] {
      if at + h >= |u| && h + d < |MARK| { assert x[h] == MARK[h + d]; }
    }
    assert at + |x| <= |joined| by { assert at + (|x| - 1) < |joined|; }
    assert x == joined[at..][..|x|];
  }

  /** In that text the secret is met behind the left overhang, and not before. */
  lemma FirstMetAround(x: Secret, d: int)
    requires -|x| < d < |MARK| && CompletesAt(x, d)
    ensures FirstMet(AroundTheMark(x, d), x, Left(d))
  {
    var u, v := x[..Left(d)], Right(x, d);
    var s := u + x + v;
    assert s[|u|..] == x + v;
    forall j | 0 <= j < |u| ensures !(x <= s[j..]) {
      if x <= s[j..] { PrefixOfPrefix(u + x, v, x, j); }
    }
  }

  lemma PrefixOfPrefix(a: string, b: string, x: string, j: nat)
    requires j + |x| <= |a| && x <= (a + b)[j..]
    ensures x <= a[j..]
  {
    assert a[j..][..|x|] == (a + b)[j..][..|x|];
  }

  lemma ComesBackThere(x: Secret, d: int)
    requires -|x| < d < |MARK| && CompletesAt(x, d)
    ensures Contains(Cut(AroundTheMark(x, d), x), x)
  {
    var u, v := x[..Left(d)], Right(x, d);
    FirstMetAround(x, d);
    SplitAtFirst(u, x, v);
    JoinTwo(u, v);
    MarkCompletes(x, d);
  }

  lemma RedactOne(x: Secret, s: string)
    ensures Redact([x], s) == Cut(s, x)
  {
    assert [x][1..] == [];
  }

  lemma LeftSomewhere(x: Secret)
    requires CanComeBack(x)
    ensures !AlwaysClean([x])
  {
    var d :| -|x| < d < |MARK| && CompletesAt(x, d);
    ComesBackThere(x, d);
    RedactOne(x, AroundTheMark(x, d));
    assert x in [x];
  }

  lemma LeftNowhere(x: Secret)
    requires !CanComeBack(x)
    ensures AlwaysClean([x])
  {
    forall s: string, y | y in [x] ensures !Contains(Redact([x], s), y) {
      RedactOne(x, s);
      if Contains(Cut(s, x), x) { ComesBackOnlyThere(s, x); }
    }
  }

  /** A secret alone, of any characters, is always removed if and only if it cannot come back over a mark. */
  lemma OneSecretIff(x: Secret)
    ensures AlwaysClean([x]) <==> !CanComeBack(x)
  {
    if CanComeBack(x) { LeftSomewhere(x); } else { LeftNowhere(x); }
  }

  const OVERHANGING: Secret := "abcdef["

  lemma OverhangingIsMetLate()
    ensures !MetEarlier(OVERHANGING, 6)
  {
    var x, text := OVERHANGING, "abcdefabcdef[";
    assert x[..6] + x == text;
    forall j | 0 <= j < 6 ensures !(x <= text[j..]) {
      if j > 0 { assert text[j] != x[0]; } else { assert text[6] != x[6]; }
    }
  }

  lemma OverhangingCompletes()
    ensures |OVERHANGING| == 7 && AgreesAt(OVERHANGING, -6) && AroundTheMark(OVERHANGING, -6) == "abcdefabcdef["
  {
  }

  /** One that ends as the mark begins. */
  lemma OverhangingSecretComesBack()
    ensures CanComeBack("abcdef[") && Contains(Cut("abcdefabcdef[", "abcdef["), "abcdef[")
  {
    OverhangingCompletes();
    OverhangingIsMetLate();
    assert CompletesAt(OVERHANGING, -6);
    ComesBackThere(OVERHANGING, -6);
  }

  /** One that can overlap the mark and is nonetheless always taken out. */
  lemma BracketsNeverComeBack()
    ensures Clashes("[[[[[[") && !CanComeBack("[[[[[[")
  {
    var x := "[[[[[[";
    assert AgreesAt(x, -5);
    forall d | -|x| < d < |MARK| ensures !CompletesAt(x, d) {
      if d == -5 {
        assert x <= (x[..5] + x)[0..];
      } else if d < 0 {
        assert x[1 - d] != MARK[1];
      } else if d == 0 {
        assert x[1] != MARK[1];
      } else {
        assert x[0] != MARK[d];
      }
    }
  }

  /** A text that holds no secret comes through as it was. */
  lemma {:induction false} CleanTextUnchanged(secrets: seq<Secret>, s: string)
    requires forall x | x in secrets :: !Contains(s, x)
    ensures Redact(secrets, s) == s
  {
    if secrets != [] { CleanTextUnchanged(secrets[1..], s); }
  }
}

/**
 * The colour of each WhatsApp number: `nextAccountColor` of `waAccountColors.js`
 * and the backfill of migration 0055.
 */
module AccountColours {
  import opened Prelude

  type Palette = p: seq<string> | p != [] witness ["blue"]

  const WA_ACCOUNT_COLORS: Palette := ["blue", "pink", "lime", "violet", "orange", "cyan", "fuchsia", "indigo"]

  /** How often a colour is used. */
  function Count(colour: string, used: seq<string>): nat {
    if used == [] then 0 else (if used[0] == colour then 1 else 0) + Count(colour, used[1..])
  }

  /** Eight colours, each once, none of them blank. What follows does not depend on which. */
  ghost predicate IsPalette(p: seq<string>) {
    |p| == 8 && "" !in p && forall colour | colour in p :: Count(colour, p) == 1
  }

  lemma {:induction false} CountInside(colour: string, p: seq<string>)
    ensures Count(colour, p) > 0 <==> colour in p
    ensures Distinct(p) ==> Count(colour, p) <= 1
  {
    if p != [] {
      assert p == [p[0]] + p[1..];
      assert forall j | 0 <= j < |p[1..]| :: p[1..][j] == p[j + 1];
      CountInside(colour, p[1..]);
    }
  }

  /** That is the number of times it occurs. */
  lemma {:induction false} CountMeaning(colour: string, used: seq<string>)
    ensures Count(colour, used) == multiset(used)[colour]
  {
    if used != [] {
      CountMeaning(colour, used[1..]);
      assert used == [used[0]] + used[1..];
    }
  }

  lemma TheEightAreDifferent()
    ensures Distinct(WA_ACCOUNT_COLORS)
  {
  }

  lemma TheEightAreAPalette()
    ensures IsPalette(WA_ACCOUNT_COLORS)
  {
    TheEightAreDifferent();
    forall colour | colour in WA_ACCOUNT_COLORS ensures Count(colour, WA_ACCOUNT_COLORS) == 1 {
      CountInside(colour, WA_ACCOUNT_COLORS);
    }
  }

  lemma {:induction false} CountSnoc(colour: string, used: seq<string>, last: string)
    ensures Count(colour, used + [last]) == Count(colour, used) + if last == colour then 1 else 0
  {
    if used == [] {
      assert used + [last] == [last];
    } else {
      assert (used + [last])[1..] == used[1..] + [last];
      CountSnoc(colour, used[1..], last);
    }
  }

  lemma CountCons(colour: string, first: string, rest: seq<string>)
    ensures Count(colour, [first] + rest) == (if first == colour then 1 else 0) + Count(colour, rest)
  {
    assert ([first] + rest)[1..] == rest;
  }

  /** The place of the first of the least used of these colours. */
  function LeastUsed(p: seq<string>, used: seq<string>): (k: nat)
    requires p != []
    ensures k < |p|
  {
    var n := |p| - 1;
    if n == 0 then 0
    else
      var best := LeastUsed(p[..n], used);
      if Count(p[n], used) < Count(p[best], used) then n else best
  }

  function Next(palette: Palette, used: seq<string>): (colour: string)
    ensures colour in palette
  {
    palette[LeastUsed(palette, used)]
  }

  predicate IsFirstLeastUsed(p: seq<string>, used: seq<string>, k: nat)
    requires k < |p|
  {
    && (forall j | 0 <= j < |p| :: Count(p[k], used) <= Count(p[j], used))
    && (forall j | 0 <= j < k :: Count(p[k], used) < Count(p[j], used))
  }

  lemma {:induction false} LeastUsedIsFirst(p: seq<string>, used: seq<string>)
    requires p != []
    ensures IsFirstLeastUsed(p, used, LeastUsed(p, used))
  {
    var n := |p| - 1;
    if n > 0 {
      LeastUsedIsFirst(p[..n], used);
      assert forall j | 0 <= j < n :: p[..n][j] == p[j];
    }
  }

  /** The colour given is the first of the least used, and no other place is. */
  lemma NextIsTheFirstLeastUsed(palette: Palette, used: seq<string>, k: nat)
    requires k < |palette|
    ensures IsFirstLeastUsed(palette, used, k) <==> k == LeastUsed(palette, used)
    ensures IsFirstLeastUsed(palette, used, k) ==> palette[k] == Next(palette, used)
  {
    var best := LeastUsed(palette, used);
    LeastUsedIsFirst(palette, used);
    if IsFirstLeastUsed(palette, used, k) {
      assert Count(palette[best], used) <= Count(palette[k], used) <= Count(palette[best], used);
    }
  }

  /** On an empty slate the colours are given in this order, and a ninth number starts again. */
  lemma ColoursInTurn(k: nat)
    requires k <= 8
    ensures Next(WA_ACCOUNT_COLORS, WA_ACCOUNT_COLORS[..k])
            == ["blue", "pink", "lime", "violet", "orange", "cyan", "fuchsia", "indigo", "blue"][k]
  {
    TheEightAreDifferent();
    UsedInTurn(WA_ACCOUNT_COLORS, k);
    NextIsTheFirstLeastUsed(WA_ACCOUNT_COLORS, WA_ACCOUNT_COLORS[..k], k % 8);
  }

  /** Of different colours, the first so many are used once and the others not at all. */
  lemma UsedInTurn(palette: seq<string>, k: nat)
    requires Distinct(palette) && k <= |palette|
    ensures forall j | 0 <= j < |palette| :: Count(palette[j], palette[..k]) == if j < k then 1 else 0
  {
    var used := palette[..k];
    assert Distinct(used);
    forall j | 0 <= j < |palette| ensures Count(palette[j], used) == if j < k then 1 else 0 {
      CountInside(palette[j], used);
      if j < k { assert used[j] == palette[j]; }
    }
  }

  /** `nextAccountColor`: count, then take the first of the least used. */
  method NextAccountColor(palette: Palette, used: seq<string>) returns (chosen: string)
    ensures chosen == Next(palette, used)
  {
    var counts: map<string, nat> := map[];
    for i := 0 to |palette|
      invariant counts.Keys == set j | 0 <= j < i :: palette[j]
      invariant forall colour | colour in counts :: counts[colour] == 0
    {
      counts := counts[palette[i] := 0];
    }
    assert used[..0] == [];
    for i := 0 to |used|
      invariant counts.Keys == set j | 0 <= j < |palette| :: palette[j]
      invariant forall colour | colour in counts :: counts[colour] == Count(colour, used[..i])
    {
      assert used[..i + 1] == used[..i] + [used[i]];
      forall colour ensures Count(colour, used[..i + 1]) == Count(colour, used[..i]) + if used[i] == colour then 1 else 0 {
        CountSnoc(colour, used[..i], used[i]);
      }
      if used[i] in counts {
        counts := counts[used[i] := counts[used[i]] + 1];
      }
    }
    assert used[..|used|] == used;
    var best := 0;
    for i := 0 to |palette|
      invariant best < |palette| && best == if i == 0 then 0 else LeastUsed(palette[..i], used)
    {
      assert palette[..i + 1][..i] == palette[..i];
      assert palette[i] in counts && palette[best] in counts;
      if counts[palette[i]] < counts[palette[best]] { best := i; }
    }
    assert palette[..|palette|] == palette;
    chosen := palette[best];
  }

  // ----- One provider's numbers -----

  type Cell = Option<string>

  /** What the backfill takes for no colour. */
  predicate Blank(c: Cell) {
    c.None? || c.value == ""
  }

  function One(c: Cell): seq<string> {
    if Blank(c) then [] else [c.value]
  }

  function Colours(cells: seq<Cell>): seq<string> {
    if cells == [] then [] else One(cells[0]) + Colours(cells[1..])
  }

  /** The cells after the pass. */
  function Complete(palette: Palette, cells: seq<Cell>, used: seq<string>): seq<Cell> {
    if cells == [] then []
    else if Blank(cells[0]) then [Some(Next(palette, used))] + Complete(palette, cells[1..], used + [Next(palette, used)])
    else [cells[0]] + Complete(palette, cells[1..], used)
  }

  /** The colours counted as used when the pass ends. */
  function UsedUp(palette: Palette, cells: seq<Cell>, used: seq<string>): seq<string> {
    if cells == [] then used
    else UsedUp(palette, cells[1..], if Blank(cells[0]) then used + [Next(palette, used)] else used)
  }

  /** Every number coloured from the palette, those that had a colour keeping it. */
  ghost predicate IsCompletion(palette: seq<string>, cells: seq<Cell>, done: seq<Cell>) {
    |done| == |cells|
    && forall i | 0 <= i < |cells| ::
         if Blank(cells[i]) then done[i].Some? && done[i].value in palette else done[i] == cells[i]
  }

  function Max(a: nat, b: nat): nat {
    if a < b then b else a
  }

  /** How often the most used of these colours is used. */
  function MostUsed(p: seq<string>, used: seq<string>): nat {
    if p == [] then 0 else Max(Count(p[0], used), MostUsed(p[1..], used))
  }

  /** It is a bound on every one of them, and the least there is. */
  lemma {:induction false} MostUsedIsLeastBound(p: seq<string>, used: seq<string>, m: nat)
    ensures MostUsed(p, used) <= m <==> forall j | 0 <= j < |p| :: Count(p[j], used) <= m
  {
    if p != [] {
      MostUsedIsLeastBound(p[1..], used, m);
      assert forall j | 1 <= j < |p| :: p[j] == p[1..][j - 1];
      assert forall j | 0 <= j < |p[1..]| :: p[1..][j] == p[j + 1];
    }
  }

  /** How many of the colours used are of these. */
  function Total(p: seq<string>, used: seq<string>): nat {
    if p == [] then 0 else Count(p[0], used) + Total(p[1..], used)
  }

  function Blanks(cells: seq<Cell>): nat {
    if cells == [] then 0 else (if Blank(cells[0]) then 1 else 0) + Blanks(cells[1..])
  }

  /** The numbers the palette is shared among: the blank ones, and those with one of its colours. */
  function Sharing(palette: seq<string>, cells: seq<Cell>): nat {
    Total(palette, Colours(cells)) + Blanks(cells)
  }

  /** Eight to a colour, rounded up. */
  function Ceil(k: nat): nat {
    (k + 7) / 8
  }

  /** The best any completion could hope for. */
  function Bound(palette: seq<string>, cells: seq<Cell>): nat {
    Max(MostUsed(palette, Colours(cells)), Ceil(Sharing(palette, cells)))
  }

  lemma {:induction false} TotalSnoc(p: seq<string>, used: seq<string>, last: string)
    ensures Total(p, used + [last]) == Total(p, used) + Count(last, p)
  {
    if p != [] {
      CountSnoc(p[0], used, last);
      TotalSnoc(p[1..], used, last);
    }
  }

  lemma {:induction false} TotalCons(p: seq<string>, first: string, rest: seq<string>)
    ensures Total(p, [first] + rest) == Count(first, p) + Total(p, rest)
  {
    if p != [] {
      CountCons(p[0], first, rest);
      TotalCons(p[1..], first, rest);
    }
  }

  lemma {:induction false} TotalOfNone(p: seq<string>)
    ensures Total(p, []) == 0
  {
    if p != [] { TotalOfNone(p[1..]); }
  }

  function Times(n: nat, x: nat): nat {
    if n == 0 then 0 else Times(n - 1, x) + x
  }

  lemma EightTimes(x: nat)
    ensures Times(8, x) == 8 * x
  {
    assert Times(1, x) == Times(0, x) + x;
    assert Times(2, x) == Times(1, x) + x;
    assert Times(3, x) == Times(2, x) + x;
    assert Times(4, x) == Times(3, x) + x;
    assert Times(5, x) == Times(4, x) + x;
    assert Times(6, x) == Times(5, x) + x;
    assert Times(7, x) == Times(6, x) + x;
  }

  /** A total lies between the number of colours times the least count and times the greatest. */
  lemma {:induction false} TotalBetween(p: seq<string>, used: seq<string>, low: nat, high: nat)
    requires forall j | 0 <= j < |p| :: low <= Count(p[j], used) <= high
    ensures Times(|p|, low) <= Total(p, used) <= Times(|p|, high)
  {
    if p != [] {
      var rest := p[1..];
      assert forall j | 0 <= j < |rest| :: rest[j] == p[j + 1];
      TotalBetween(rest, used, low, high);
    }
  }

  /** One more number raises the repetition only when the palette has been used up evenly. */
  lemma StepBound(palette: Palette, used: seq<string>)
    requires IsPalette(palette)
    ensures var after := used + [Next(palette, used)];
      && MostUsed(palette, after) <= Max(MostUsed(palette, used), Ceil(Total(palette, used) + 1))
      && Total(palette, after) == Total(palette, used) + 1
  {
    var next := Next(palette, used);
    var least := Count(next, used);
    var most := MostUsed(palette, used);
    var m := Max(most, least + 1);
    LeastUsedIsFirst(palette, used);
    MostUsedIsLeastBound(palette, used, most);
    TotalBetween(palette, used, least, most);
    EightTimes(least);
    TotalSnoc(palette, used, next);
    forall j | 0 <= j < |palette| ensures Count(palette[j], used + [next]) <= m { CountSnoc(palette[j], used, next); }
    MostUsedIsLeastBound(palette, used + [next], m);
  }

  /** From the bound on what follows a blank number to the bound on all. */
  lemma BoundChains(all: nat, after: nat, before: nat, total: nat, blanks: nat)
    requires all <= Max(after, Ceil(total + 1 + blanks)) && after <= Max(before, Ceil(total + 1))
    ensures all <= Max(before, Ceil(total + (1 + blanks)))
  {
  }

  lemma {:induction false} PassBound(palette: Palette, cells: seq<Cell>, used: seq<string>)
    requires IsPalette(palette)
    ensures MostUsed(palette, UsedUp(palette, cells, used))
         <= Max(MostUsed(palette, used), Ceil(Total(palette, used) + Blanks(cells)))
    decreases |cells|
  {
    if cells != [] {
      if Blank(cells[0]) {
        var after := used + [Next(palette, used)];
        PassBound(palette, cells[1..], after);
        StepBound(palette, used);
        BoundChains(MostUsed(palette, UsedUp(palette, cells[1..], after)), MostUsed(palette, after), MostUsed(palette, used),
                    Total(palette, used), Blanks(cells[1..]));
      } else {
        PassBound(palette, cells[1..], used);
      }
    }
  }

  lemma CountColoursCons(colour: string, c: Cell, rest: seq<Cell>)
    ensures Count(colour, Colours([c] + rest)) == Count(colour, One(c)) + Count(colour, Colours(rest))
  {
    assert ([c] + rest)[1..] == rest;
    if Blank(c) {
      assert One(c) + Colours(rest) == Colours(rest);
    } else {
      CountCons(colour, c.value, Colours(rest));
    }
  }

  /** What is coloured in the end is what was, and what the pass used up. */
  lemma {:induction false} CompleteCounts(palette: Palette, cells: seq<Cell>, used: seq<string>, colour: string)
    requires "" !in palette
    ensures Count(colour, Colours(Complete(palette, cells, used))) + Count(colour, used)
         == Count(colour, Colours(cells)) + Count(colour, UsedUp(palette, cells, used))
    decreases |cells|
  {
    if cells != [] {
      var next := Next(palette, used);
      var after := if Blank(cells[0]) then used + [next] else used;
      var first := if Blank(cells[0]) then Some(next) else cells[0];
      CompleteCounts(palette, cells[1..], after, colour);
      CountSnoc(colour, used, next);
      CountColoursCons(colour, first, Complete(palette, cells[1..], after));
      CountColoursCons(colour, cells[0], cells[1..]);
      assert cells == [cells[0]] + cells[1..];
    }
  }

  lemma {:induction false} CompleteIsCompletion(palette: Palette, cells: seq<Cell>, used: seq<string>)
    ensures IsCompletion(palette, cells, Complete(palette, cells, used))
    decreases |cells|
  {
    if cells != [] {
      CompleteIsCompletion(palette, cells[1..], if Blank(cells[0]) then used + [Next(palette, used)] else used);
    }
  }

  lemma CompletionTail(palette: seq<string>, cells: seq<Cell>, done: seq<Cell>)
    requires IsCompletion(palette, cells, done) && cells != [] && "" !in palette
    ensures IsCompletion(palette, cells[1..], done[1..])
    ensures !Blank(done[0]) && if Blank(cells[0]) then done[0].value in palette else done[0] == cells[0]
  {
    forall i | 0 <= i < |cells[1..]|
      ensures if Blank(cells[1..][i]) then done[1..][i].Some? && done[1..][i].value in palette
              else done[1..][i] == cells[1..][i]
    {
      assert cells[1..][i] == cells[i + 1] && done[1..][i] == done[i + 1];
    }
  }

  /** Every completion shares the palette among the same numbers. */
  lemma {:induction false} CompletionShares(palette: seq<string>, cells: seq<Cell>, done: seq<Cell>)
    requires IsPalette(palette) && IsCompletion(palette, cells, done)
    ensures Total(palette, Colours(done)) == Sharing(palette, cells)
    decreases |cells|
  {
    if cells == [] {
      TotalOfNone(palette);
    } else {
      CompletionTail(palette, cells, done);
      CompletionShares(palette, cells[1..], done[1..]);
      TotalCons(palette, done[0].value, Colours(done[1..]));
      if Blank(cells[0]) {
        assert Colours(cells) == Colours(cells[1..]);
      } else {
        TotalCons(palette, cells[0].value, Colours(cells[1..]));
      }
    }
  }

  /** And uses each colour at least as often as it was. */
  lemma {:induction false} CompletionHoldsColours(palette: seq<string>, cells: seq<Cell>, done: seq<Cell>, colour: string)
    requires "" !in palette && IsCompletion(palette, cells, done)
    ensures Count(colour, Colours(cells)) <= Count(colour, Colours(done))
    decreases |cells|
  {
    if cells != [] {
      CompletionTail(palette, cells, done);
      CompletionHoldsColours(palette, cells[1..], done[1..], colour);
      assert cells == [cells[0]] + cells[1..] && done == [done[0]] + done[1..];
      CountColoursCons(colour, cells[0], cells[1..]);
      CountColoursCons(colour, done[0], done[1..]);
    }
  }

  lemma {:induction false} MoreRepeatsMore(p: seq<string>, a: seq<string>, b: seq<string>)
    requires forall j | 0 <= j < |p| :: Count(p[j], a) <= Count(p[j], b)
    ensures MostUsed(p, a) <= MostUsed(p, b)
  {
    MostUsedIsLeastBound(p, b, MostUsed(p, b));
    MostUsedIsLeastBound(p, a, MostUsed(p, b));
  }

  /** No completion repeats a colour less than the bound. */
  lemma NoCompletionBeatsTheBound(palette: seq<string>, cells: seq<Cell>, done: seq<Cell>)
    requires IsPalette(palette) && IsCompletion(palette, cells, done)
    ensures Bound(palette, cells) <= MostUsed(palette, Colours(done))
  {
    var most := MostUsed(palette, Colours(done));
    CompletionShares(palette, cells, done);
    forall j | 0 <= j < |palette| ensures Count(palette[j], Colours(cells)) <= Count(palette[j], Colours(done)) {
      CompletionHoldsColours(palette, cells, done, palette[j]);
    }
    MoreRepeatsMore(palette, Colours(cells), Colours(done));
    MostUsedIsLeastBound(palette, Colours(done), most);
    TotalBetween(palette, Colours(done), 0, most);
    EightTimes(most);
  }

  lemma PassMeetsTheBound(palette: Palette, cells: seq<Cell>)
    requires IsPalette(palette)
    ensures MostUsed(palette, Colours(Complete(palette, cells, Colours(cells)))) <= Bound(palette, cells)
  {
    var used := Colours(cells);
    var done := Colours(Complete(palette, cells, used));
    var up := UsedUp(palette, cells, used);
    forall j | 0 <= j < |palette| ensures Count(palette[j], done) <= Count(palette[j], up) {
      CompleteCounts(palette, cells, used, palette[j]);
    }
    MoreRepeatsMore(palette, done, up);
    PassBound(palette, cells, used);
  }

  /**
   * The pass keeps every colour that was there, colours every other number, and
   * repeats the most repeated colour exactly as often as no completion can avoid.
   */
  lemma PassIsOptimal(palette: Palette, cells: seq<Cell>)
    requires IsPalette(palette)
    ensures var done := Complete(palette, cells, Colours(cells));
      && IsCompletion(palette, cells, done)
      && MostUsed(palette, Colours(done)) == Bound(palette, cells)
      && forall other | IsCompletion(palette, cells, other) ::
           MostUsed(palette, Colours(done)) <= MostUsed(palette, Colours(other))
  {
    var done := Complete(palette, cells, Colours(cells));
    CompleteIsCompletion(palette, cells, Colours(cells));
    PassMeetsTheBound(palette, cells);
    NoCompletionBeatsTheBound(palette, cells, done);
    forall other | IsCompletion(palette, cells, other)
      ensures MostUsed(palette, Colours(done)) <= MostUsed(palette, Colours(other))
    {
      NoCompletionBeatsTheBound(palette, cells, other);
    }
  }

  lemma {:induction false} NothingBlankNothingDone(palette: Palette, cells: seq<Cell>, used: seq<string>)
    requires forall i | 0 <= i < |cells| :: !Blank(cells[i])
    ensures Complete(palette, cells, used) == cells
  {
    if cells != [] {
      assert forall i | 0 <= i < |cells[1..]| :: cells[1..][i] == cells[i + 1];
      NothingBlankNothingDone(palette, cells[1..], used);
    }
  }

  /** Run again, the pass gives nobody another colour. */
  lemma SecondPassChangesNothing(palette: Palette, cells: seq<Cell>)
    requires "" !in palette
    ensures var done := Complete(palette, cells, Colours(cells));
      Complete(palette, done, Colours(done)) == done
  {
    var done := Complete(palette, cells, Colours(cells));
    CompleteIsCompletion(palette, cells, Colours(cells));
    forall i | 0 <= i < |done| ensures !Blank(done[i]) {}
    NothingBlankNothingDone(palette, done, Colours(done));
  }

  // ----- Up to eight numbers -----

  /** Each colour occurs where some number has it, so a palette is shared among no more numbers than there are. */
  lemma {:induction false} SharingAtMostAll(palette: seq<string>, cells: seq<Cell>)
    requires IsPalette(palette)
    ensures Sharing(palette, cells) <= |cells|
  {
    if cells == [] {
      TotalOfNone(palette);
    } else {
      SharingAtMostAll(palette, cells[1..]);
      if Blank(cells[0]) {
        assert Colours(cells) == Colours(cells[1..]);
      } else {
        TotalCons(palette, cells[0].value, Colours(cells[1..]));
        CountInside(cells[0].value, palette);
      }
    }
  }

  lemma {:induction false} CountOfAbsent(cells: seq<Cell>, colour: string)
    requires colour != "" && forall i | 0 <= i < |cells| :: cells[i] != Some(colour)
    ensures Count(colour, Colours(cells)) == 0
  {
    if cells != [] {
      assert cells == [cells[0]] + cells[1..];
      assert forall i | 0 <= i < |cells[1..]| :: cells[1..][i] == cells[i + 1];
      CountOfAbsent(cells[1..], colour);
      CountColoursCons(colour, cells[0], cells[1..]);
    }
  }

  /** A colour no two numbers share is used at most once. */
  lemma {:induction false} CountOfUnshared(cells: seq<Cell>, colour: string)
    requires colour != "" && forall i, j | 0 <= i < j < |cells| && cells[i] == Some(colour) :: cells[j] != Some(colour)
    ensures Count(colour, Colours(cells)) <= 1
  {
    if cells != [] {
      assert cells == [cells[0]] + cells[1..];
      assert forall i | 0 <= i < |cells[1..]| :: cells[1..][i] == cells[i + 1];
      CountColoursCons(colour, cells[0], cells[1..]);
      if cells[0] == Some(colour) { CountOfAbsent(cells[1..], colour); } else { CountOfUnshared(cells[1..], colour); }
    }
  }

  /** A colour that is on some number is used. */
  lemma {:induction false} CountOfPresent(cells: seq<Cell>, colour: string, i: nat)
    requires colour != "" && i < |cells| && cells[i] == Some(colour)
    ensures Count(colour, Colours(cells)) >= 1
  {
    assert cells == [cells[0]] + cells[1..];
    CountColoursCons(colour, cells[0], cells[1..]);
    if i > 0 { CountOfPresent(cells[1..], colour, i - 1); }
  }

  /** One that two share is used twice. */
  lemma {:induction false} CountOfShared(cells: seq<Cell>, colour: string, i: nat, j: nat)
    requires colour != "" && i < j < |cells| && cells[i] == Some(colour) && cells[j] == Some(colour)
    ensures Count(colour, Colours(cells)) >= 2
  {
    assert cells == [cells[0]] + cells[1..];
    CountColoursCons(colour, cells[0], cells[1..]);
    if i == 0 { CountOfPresent(cells[1..], colour, j - 1); } else { CountOfShared(cells[1..], colour, i - 1, j - 1); }
  }

  /** Up to eight numbers, those with a colour all different: in the end they are all different. */
  lemma UpToEightAreAllDifferent(palette: Palette, cells: seq<Cell>)
    requires IsPalette(palette)
    requires |cells| <= 8 && forall i | 0 <= i < |cells| :: Blank(cells[i]) || cells[i].value in palette
    requires forall i, j | 0 <= i < j < |cells| && !Blank(cells[i]) :: cells[i] != cells[j]
    ensures Distinct(Complete(palette, cells, Colours(cells)))
  {
    var done := Complete(palette, cells, Colours(cells));
    PassIsOptimal(palette, cells);
    SharingAtMostAll(palette, cells);
    forall k | 0 <= k < |palette| ensures Count(palette[k], Colours(cells)) <= 1 {
      assert palette[k] in palette;
      CountOfUnshared(cells, palette[k]);
    }
    MostUsedIsLeastBound(palette, Colours(cells), 1);
    MostUsedIsLeastBound(palette, Colours(done), 1);
    forall i, j | 0 <= i < j < |done| ensures done[i] != done[j] {
      var colour := done[i].value;
      assert colour in palette;
      var k :| 0 <= k < |palette| && palette[k] == colour;
      assert Count(palette[k], Colours(done)) <= 1;
      if done[i] == done[j] { CountOfShared(done, colour, i, j); }
    }
  }

  // ----- The table -----

  datatype WaAccount = WaAccount(id: int, tenant: int, colour: Cell)

  function Cells(rows: seq<WaAccount>, tenant: int): seq<Cell> {
    if rows == [] then []
    else (if rows[0].tenant == tenant then [rows[0].colour] else []) + Cells(rows[1..], tenant)
  }

  lemma {:induction false} CellsOfConcat(a: seq<WaAccount>, b: seq<WaAccount>, tenant: int)
    ensures Cells(a + b, tenant) == Cells(a, tenant) + Cells(b, tenant)
  {
    if a == [] {
      assert a + b == b;
    } else {
      assert (a + b)[1..] == a[1..] + b;
      CellsOfConcat(a[1..], b, tenant);
      Associates(CellOf(a[0], tenant), Cells(a[1..], tenant), Cells(b, tenant));
    }
  }

  lemma CellsCons(row: WaAccount, rows: seq<WaAccount>, tenant: int)
    ensures Cells([row] + rows, tenant) == CellOf(row, tenant) + Cells(rows, tenant)
  {
    assert ([row] + rows)[1..] == rows;
  }

  function CellOf(row: WaAccount, tenant: int): seq<Cell> {
    if row.tenant == tenant then [row.colour] else []
  }

  lemma {:induction false} ColoursOfConcat(a: seq<Cell>, b: seq<Cell>)
    ensures Colours(a + b) == Colours(a) + Colours(b)
  {
    if a == [] {
      assert a + b == b;
    } else {
      assert (a + b)[1..] == a[1..] + b;
      ColoursOfConcat(a[1..], b);
      Associates(One(a[0]), Colours(a[1..]), Colours(b));
    }
  }

  function UsedBy(used: map<int, seq<string>>, tenant: int): seq<string> {
    if tenant in used then used[tenant] else []
  }

  lemma CellsSnoc(rows: seq<WaAccount>, i: nat, tenant: int)
    requires i < |rows|
    ensures Cells(rows[..i + 1], tenant) == Cells(rows[..i], tenant) + CellOf(rows[i], tenant)
    ensures Colours(Cells(rows[..i + 1], tenant)) == Colours(Cells(rows[..i], tenant)) + Colours(CellOf(rows[i], tenant))
  {
    assert rows[..i + 1] == rows[..i] + [rows[i]];
    CellsOfConcat(rows[..i], [rows[i]], tenant);
    ColoursOfConcat(Cells(rows[..i], tenant), CellOf(rows[i], tenant));
  }

  /** The colours in use after one more row. */
  function WithRow(used: map<int, seq<string>>, row: WaAccount): map<int, seq<string>> {
    var met := if row.tenant in used then used else used[row.tenant := []];
    if Blank(row.colour) then met else met[row.tenant := met[row.tenant] + [row.colour.value]]
  }

  lemma ColoursOfMine(row: WaAccount, tenant: int)
    ensures Colours(CellOf(row, tenant)) == if row.tenant == tenant then One(row.colour) else []
  {
    if row.tenant == tenant {
      assert [row.colour][1..] == [];
      assert One(row.colour) + [] == One(row.colour);
    }
  }

  lemma WithRowAdds(used: map<int, seq<string>>, row: WaAccount, t: int)
    ensures UsedBy(WithRow(used, row), t) == UsedBy(used, t) + if row.tenant == t then One(row.colour) else []
  {
    assert UsedBy(used, t) + [] == UsedBy(used, t);
  }

  lemma WithRowUses(used: map<int, seq<string>>, lines: seq<WaAccount>, i: nat, t: int)
    requires i < |lines| && UsedBy(used, t) == Colours(Cells(lines[..i], t))
    ensures UsedBy(WithRow(used, lines[i]), t) == Colours(Cells(lines[..i + 1], t))
  {
    CellsSnoc(lines, i, t);
    ColoursOfMine(lines[i], t);
    WithRowAdds(used, lines[i], t);
  }

  /** The pass changes nothing of a row but its colour, and not that if it has one. */
  predicate Recoloured(before: WaAccount, after: WaAccount) {
    after == before || (Blank(before.colour) && after == before.(colour := after.colour))
  }

  /** One provider's numbers after the pass. */
  function Coloured(palette: Palette, rows: seq<WaAccount>, tenant: int): seq<Cell> {
    Complete(palette, Cells(rows, tenant), Colours(Cells(rows, tenant)))
  }

  /** The row the pass makes of one, and the colours in use after it. */
  function ColourRow(palette: Palette, row: WaAccount, used: map<int, seq<string>>): WaAccount {
    if Blank(row.colour) then row.(colour := Some(Next(palette, UsedBy(used, row.tenant)))) else row
  }

  function UsedAfter(palette: Palette, row: WaAccount, used: map<int, seq<string>>): map<int, seq<string>> {
    var mine := UsedBy(used, row.tenant);
    if Blank(row.colour) then used[row.tenant := mine + [Next(palette, mine)]] else used
  }

  /** The whole pass, row by row. */
  function PassOver(palette: Palette, rows: seq<WaAccount>, used: map<int, seq<string>>): (after: seq<WaAccount>)
    ensures |after| == |rows|
    decreases |rows|
  {
    if rows == [] then []
    else [ColourRow(palette, rows[0], used)] + PassOver(palette, rows[1..], UsedAfter(palette, rows[0], used))
  }

  /** Provider by provider, the pass over everybody's rows is the pass over its own. */
  lemma {:induction false} PassOverCells(palette: Palette, rows: seq<WaAccount>, used: map<int, seq<string>>, tenant: int)
    ensures Cells(PassOver(palette, rows, used), tenant) == Complete(palette, Cells(rows, tenant), UsedBy(used, tenant))
    decreases |rows|
  {
    if rows != [] {
      var row, rest := rows[0], rows[1..];
      var next := UsedAfter(palette, row, used);
      PassOverCells(palette, rest, next, tenant);
      CellsCons(ColourRow(palette, row, used), PassOver(palette, rest, next), tenant);
      assert rows == [row] + rest;
      CellsCons(row, rest, tenant);
      if row.tenant == tenant {
        assert ([row.colour] + Cells(rest, tenant))[1..] == Cells(rest, tenant);
      } else {
        assert UsedBy(next, tenant) == UsedBy(used, tenant);
        var after := PassOver(palette, rest, next);
        assert [] + Cells(rest, tenant) == Cells(rest, tenant) && [] + Cells(after, tenant) == Cells(after, tenant);
      }
    }
  }

  lemma {:induction false} PassOverRecolours(palette: Palette, rows: seq<WaAccount>, used: map<int, seq<string>>)
    ensures forall i | 0 <= i < |rows| :: Recoloured(rows[i], PassOver(palette, rows, used)[i])
    decreases |rows|
  {
    if rows != [] {
      PassOverRecolours(palette, rows[1..], UsedAfter(palette, rows[0], used));
      assert forall i | 1 <= i < |rows| :: rows[i] == rows[1..][i - 1];
    }
  }

  /** The pass from row `i` on, one row at a time. */
  lemma PassOverNext(palette: Palette, rows: seq<WaAccount>, i: nat, used: map<int, seq<string>>)
    requires i < |rows|
    ensures PassOver(palette, rows[i..], used)
         == [ColourRow(palette, rows[i], used)] + PassOver(palette, rows[i + 1..], UsedAfter(palette, rows[i], used))
  {
    assert rows[i..][0] == rows[i] && rows[i..][1..] == rows[i + 1..];
  }

  /** By provider, then by id; the id is the key. */
  ghost predicate Ordered(rows: seq<WaAccount>) {
    forall i, j | 0 <= i < j < |rows| ::
      rows[i].id != rows[j].id
      && (rows[i].tenant < rows[j].tenant || (rows[i].tenant == rows[j].tenant && rows[i].id < rows[j].id))
  }

  lemma RecolouringKeepsOrder(before: seq<WaAccount>, after: seq<WaAccount>)
    requires Ordered(before) && |after| == |before|
    requires forall i | 0 <= i < |before| :: Recoloured(before[i], after[i])
    ensures Ordered(after)
  {
    assert forall i | 0 <= i < |before| :: after[i].id == before[i].id && after[i].tenant == before[i].tenant;
  }

  /** `whatsapp_accounts`, in the order the backfill reads it: by provider, then by id. */
  class AccountTable {
    var rows: seq<WaAccount>
    const palette: Palette

    constructor (rows: seq<WaAccount>)
      ensures this.rows == rows && palette == WA_ACCOUNT_COLORS
    {
      this.rows, palette := rows, WA_ACCOUNT_COLORS;
    }

    ghost predicate Valid()
      reads this
    {
      Ordered(rows)
    }

    /** `update({ color })` where the id is the given one. */
    method SetColour(id: int, colour: string)
      modifies this`rows
      ensures |rows| == |old(rows)|
      ensures forall i | 0 <= i < |rows| ::
        rows[i] == if old(rows)[i].id == id then old(rows)[i].(colour := Some(colour)) else old(rows)[i]
    {
      rows := seq(|rows|, i requires 0 <= i < |rows| reads this =>
        if rows[i].id == id then rows[i].(colour := Some(colour)) else rows[i]);
    }

    /** The colours already there, provider by provider, in the order of the rows. */
    method ColoursInUse(lines: seq<WaAccount>) returns (used: map<int, seq<string>>)
      ensures forall row | row in lines :: row.tenant in used
      ensures forall t: int :: UsedBy(used, t) == Colours(Cells(lines, t))
    {
      used := map[];
      assert lines[..0] == [];
      for i := 0 to |lines|
        invariant forall k | 0 <= k < i :: lines[k].tenant in used
        invariant forall t: int :: UsedBy(used, t) == Colours(Cells(lines[..i], t))
      {
        var row := lines[i];
        forall t: int ensures UsedBy(WithRow(used, row), t) == Colours(Cells(lines[..i + 1], t)) {
          assert UsedBy(used, t) == Colours(Cells(lines[..i], t));
          WithRowUses(used, lines, i, t);
        }
        ghost var next := WithRow(used, row);
        if row.tenant !in used { used := used[row.tenant := []]; }
        if !Blank(row.colour) { used := used[row.tenant := used[row.tenant] + [row.colour.value]]; }
        assert used == next;
      }
      assert lines[..|lines|] == lines;
    }

    /** The backfill of migration 0055, after its column is there. */
    method Backfill()
      requires Valid()
      modifies `rows
      ensures Valid()
      ensures |rows| == |old(rows)|
      ensures forall i | 0 <= i < |rows| :: Recoloured(old(rows)[i], rows[i])
      ensures forall t: int :: Cells(rows, t) == Coloured(palette, old(rows), t)
    {
      var lines := rows;
      var used := ColoursInUse(lines);
      ghost var first := used;
      ghost var goal := PassOver(palette, lines, used);
      assert lines[0..] == lines;
      for i := 0 to |lines|
        invariant |rows| == |lines| && forall k | 0 <= k < |rows| :: rows[k] == if k < i then goal[k] else lines[k]
        invariant goal[i..] == PassOver(palette, lines[i..], used)
        invariant forall k | 0 <= k < |lines| :: lines[k].tenant in used
      {
        var row := lines[i];
        PassOverNext(palette, lines, i, used);
        PassOverRecolours(palette, lines, first);
        assert goal[i] == goal[i..][0] && goal[i + 1..] == goal[i..][1..];
        if Blank(row.colour) {
          var mine := used[row.tenant];
          var colour := NextAccountColor(palette, mine);
          used := used[row.tenant := mine + [colour]];
          SetColour(row.id, colour);
        }
      }
      assert rows == goal;
      PassOverRecolours(palette, lines, first);
      RecolouringKeepsOrder(lines, rows);
      forall t: int ensures Cells(rows, t) == Coloured(palette, lines, t) {
        PassOverCells(palette, lines, first, t);
        assert UsedBy(first, t) == Colours(Cells(lines, t));
      }
    }
  }
}

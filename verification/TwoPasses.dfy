/** When a second rendering pass over a template filled with hardened values agrees with one
    pass that has all the values: the exact condition on the template and the keys of the
    first pass. */
module TwoPasses {
  import opened Wrappers
  import opened PyText
  import opened PromptRender

  /** As `harden_untrusted` leaves them: neither marker. */
  ghost predicate Hard(first: Values) {
    forall k | k in first :: NoPair(first[k], '<') && NoPair(first[k], '>')
  }

  // ---- The condition -----------------------------------------------------------------

  /** A token that the first pass fills in. */
  predicate IsHole(keys: set<string>, p: Piece) {
    p.Token? && p.key in keys
  }

  predicate CanBe(keys: set<string>, p: Piece, c: char) {
    p == Plain(c) || IsHole(keys, p)
  }

  /** Pieces that must come out empty for a and b, c and d to meet. */
  predicate Between(a: nat, b: nat, c: nat, d: nat, n: nat) {
    a < n < b || c < n < d
  }

  /** Pieces a to d can be filled so that a token of the second pass begins with the last
      character of a and ends with the first of d: a and b supply the opening marker, c and
      d the closing one, what is between a and b and between c and d comes out empty, and
      what is between b and c a word. As a key has one value, a piece cannot play two parts
      that ask for different values. */
  predicate Closes(keys: set<string>, ps: seq<Piece>, a: nat, b: nat, c: nat, d: nat) {
    && a < b <= c < d < |ps|
    && CanBe(keys, ps[a], '<') && CanBe(keys, ps[b], '<') && CanBe(keys, ps[c], '>') && CanBe(keys, ps[d], '>')
    && (forall n: nat | n < |ps| && Between(a, b, c, d, n) :: IsHole(keys, ps[n]))
    && (forall n | b < n < c :: IsHole(keys, ps[n]) || (ps[n].Plain? && IsWordChar(ps[n].c)))
    && (forall n | a < n < d && n != b && n != c :: ps[n] !in {ps[a], ps[b], ps[c], ps[d]})
    && ps[a] != ps[c] && ps[b] != ps[d] && (b < c ==> ps[b] != ps[c])
    && (b < c ==>
          || (IsHole(keys, ps[b]) && ps[b] != ps[a])
          || (IsHole(keys, ps[c]) && ps[c] != ps[d])
          || exists n | b < n < c :: forall m: nat | m < |ps| && Between(a, b, c, d, m) :: ps[n] != ps[m])
  }

  ghost predicate CanClose(keys: set<string>, ps: seq<Piece>) {
    exists a: nat, b: nat, c: nat, d: nat :: Closes(keys, ps, a, b, c, d)
  }

  // ---- The first pass as pieces ------------------------------------------------------

  function Chars(v: string): seq<Piece> {
    if v == "" then [] else [Plain(v[0])] + Chars(v[1..])
  }

  function ExpandOne(first: Values, p: Piece): seq<Piece> {
    if p.Token? && p.key in first then Chars(first[p.key]) else [p]
  }

  /** What the first pass leaves, with the values as plain characters. */
  function Expand(first: Values, ps: seq<Piece>): seq<Piece> {
    if ps == [] then [] else ExpandOne(first, ps[0]) + Expand(first, ps[1..])
  }

  lemma {:induction false} CharsAre(v: string)
    ensures |Chars(v)| == |v| && forall i | 0 <= i < |v| :: Chars(v)[i] == Plain(v[i])
  {
    if v != "" { CharsAre(v[1..]); }
  }

  lemma TailOfAppend<T>(x: seq<T>, y: seq<T>)
    requires x != []
    ensures x + y != [] && (x + y)[0] == x[0] && (x + y)[1..] == x[1..] + y
  {
  }

  lemma {:induction false} FillAllAppend(values: Values, x: seq<Piece>, y: seq<Piece>)
    ensures FillAll(values, x + y) == FillAll(values, x) + FillAll(values, y)
  {
    if x == [] {
      assert x + y == y;
    } else {
      FillAllAppend(values, x[1..], y);
      FillAllStep(values, x);
      FillAllStep(values, x + y);
      TailOfAppend(x, y);
      Regroup(Fill(values, x[0]), FillAll(values, x[1..]), FillAll(values, y));
    }
  }

  lemma FillAllStep(values: Values, ps: seq<Piece>)
    requires ps != []
    ensures FillAll(values, ps) == Fill(values, ps[0]) + FillAll(values, ps[1..])
  {
  }

  lemma SpellsOwn(ps: seq<Piece>)
    ensures Spell(ps) == FillAll(map[], ps)
  {
  }

  lemma SpellAppend(x: seq<Piece>, y: seq<Piece>)
    ensures Spell(x + y) == Spell(x) + Spell(y)
  {
    SpellsOwn(x);
    SpellsOwn(y);
    SpellsOwn(x + y);
    FillAllAppend(map[], x, y);
  }

  lemma {:induction false} CharsFill(values: Values, v: string)
    ensures FillAll(values, Chars(v)) == v && Spell(Chars(v)) == v
  {
    if v != "" {
      CharsFill(values, v[1..]);
      SpellStep(Plain(v[0]), Chars(v[1..]));
      assert v == [v[0]] + v[1..];
    }
  }

  lemma OneExpanded(first: Values, second: Values, p: Piece)
    ensures Spell(ExpandOne(first, p)) == Fill(first, p)
    ensures FillAll(second, ExpandOne(first, p)) == Fill(Joined(first, second), p)
  {
    if p.Token? && p.key in first {
      CharsFill(second, first[p.key]);
    } else {
      SpellStep(p, []);
      assert [p] + [] == [p];
    }
  }

  /** The first pass writes these pieces, and filling them in is one pass with all values. */
  lemma {:induction false} Expanded(first: Values, second: Values, ps: seq<Piece>)
    ensures Spell(Expand(first, ps)) == FillAll(first, ps)
    ensures FillAll(second, Expand(first, ps)) == FillAll(Joined(first, second), ps)
  {
    if ps != [] {
      Expanded(first, second, ps[1..]);
      OneExpanded(first, second, ps[0]);
      FillAllAppend(second, ExpandOne(first, ps[0]), Expand(first, ps[1..]));
      SpellAppend(ExpandOne(first, ps[0]), Expand(first, ps[1..]));
    }
  }

  ghost predicate Keyed(ps: seq<Piece>) {
    forall i | 0 <= i < |ps| && ps[i].Token? :: IsKey(ps[i].key)
  }

  lemma {:induction false} LeftmostKeyed(ps: seq<Piece>)
    requires IsLeftmost(ps)
    ensures Keyed(ps)
  {
    if ps != [] { LeftmostKeyed(ps[1..]); }
  }

  lemma {:induction false} ExpandKeyed(first: Values, ps: seq<Piece>)
    requires Keyed(ps)
    ensures Keyed(Expand(first, ps))
  {
    if ps != [] {
      ExpandKeyed(first, ps[1..]);
      if ps[0].Token? && ps[0].key in first { CharsAre(first[ps[0].key]); }
    }
  }

  // ---- A new token shows -------------------------------------------------------------

  /** A token begins at a plain character. */
  ghost predicate Hit(ps: seq<Piece>, m: nat) {
    m < |ps| && ps[m].Plain? && TokenLength(Spell(ps[m..])) > 0
  }

  lemma {:induction false} LeftmostWithoutHit(ps: seq<Piece>)
    requires Keyed(ps) && forall m: nat :: !Hit(ps, m)
    ensures IsLeftmost(ps)
  {
    if ps != [] {
      forall m: nat ensures !Hit(ps[1..], m) {
        assert !Hit(ps, m + 1);
        if m < |ps| - 1 { assert ps[1..][m..] == ps[m + 1..]; }
      }
      LeftmostWithoutHit(ps[1..]);
      assert !Hit(ps, 0);
      assert ps[0..] == ps;
    }
  }

  /** What a token is written like: two opening markers, and none after them. */
  lemma TokenChars(s: string, i: nat)
    requires 0 < i < TokenLength(s)
    ensures s[0] == s[1] == '<' && IsWordChar(s[2]) && (i >= 2 ==> s[i] != '<')
  {
    TokenText(s);
    var key := s[2..TokenLength(s) - 2];
    assert s[2] == key[0];
    if 2 <= i < TokenLength(s) - 2 { assert s[i] == key[i - 2]; }
  }

  /** All of a new token is plain characters: it overlaps no token of the template. */
  lemma {:induction false} HitIsPlain(ps: seq<Piece>, j: nat)
    requires Keyed(ps) && Hit(ps, 0) && 0 < j <= TokenLength(Spell(ps))
    ensures j <= |ps| && (forall i | 0 <= i < j :: ps[i].Plain?)
    ensures Spell(ps)[j..] == Spell(ps[j..])
  {
    var s := Spell(ps);
    if j > 1 {
      HitIsPlain(ps, j - 1);
      assert ps[j - 1..] != [];
      TokenIsTooEarly(ps, j - 1);
      PlainStep(ps, j - 1, s);
    } else {
      assert ps[0..] == ps;
    }
  }

  lemma PlainStep(ps: seq<Piece>, j: nat, s: string)
    requires j < |ps| && ps[j].Plain? && j < |s| && s[j..] == Spell(ps[j..])
    ensures s[j + 1..] == Spell(ps[j + 1..])
  {
    var rest := ps[j..];
    assert rest[1..] == ps[j + 1..];
    assert Spell(rest) == [rest[0].c] + Spell(rest[1..]);
    assert s[j..][1..] == s[j + 1..];
  }

  lemma TokenOpens(p: Piece, rest: string)
    requires p.Token? && IsKey(p.key)
    ensures var t := PieceText(p) + rest; |t| >= 3 && t[0] == t[1] == '<'
  {
  }

  lemma TokenIsTooEarly(ps: seq<Piece>, j: nat)
    requires Keyed(ps) && 0 < j < TokenLength(Spell(ps)) && j < |ps| && Spell(ps)[j..] == Spell(ps[j..])
    ensures ps[j].Plain?
  {
    if ps[j].Token? {
      var s, rest := Spell(ps), ps[j..];
      TokenOpens(rest[0], Spell(rest[1..]));
      assert s[j] == s[j..][0] && s[j + 1] == s[j..][1];
      TokenChars(s, j);
    }
  }

  /** The new token's key is w. */
  ghost predicate HitOf(ps: seq<Piece>, m: nat, w: string) {
    Hit(ps, m) && HeadPiece(Spell(ps[m..])) == Token(w)
  }

  lemma HitLater(ps: seq<Piece>, j: nat, m: nat, w: string)
    requires j <= m && j <= |ps|
    ensures HitOf(ps, m, w) <==> HitOf(ps[j..], m - j, w)
  {
    if m < |ps| { assert ps[m..] == ps[j..][m - j..]; }
  }

  /** Inside a token no other begins. */
  lemma NoHitInside(ps: seq<Piece>, m: nat, w: string)
    requires Keyed(ps) && Hit(ps, 0) && 0 < m < TokenLength(Spell(ps))
    ensures !HitOf(ps, m, w)
  {
    if HitOf(ps, m, w) {
      var s := Spell(ps);
      HitIsPlain(ps, m);
      var rest := Spell(ps[m..]);
      assert rest[0] == s[m] && rest[1] == s[m + 1];
      TokenChars(rest, 1);
      TokenChars(s, m);
    }
  }

  lemma SpellPlain(ps: seq<Piece>)
    requires ps != [] && ps[0].Plain? && TokenLength(Spell(ps)) == 0
    ensures Tokenise(Spell(ps)) == [ps[0]] + Tokenise(Spell(ps[1..]))
  {
    TokenisePlain(ps[0].c, Spell(ps[1..]));
  }

  lemma SpellToken(ps: seq<Piece>)
    requires ps != [] && ps[0].Token? && IsKey(ps[0].key)
    ensures Tokenise(Spell(ps)) == [ps[0]] + Tokenise(Spell(ps[1..]))
  {
    TokeniseToken(ps[0].key, Spell(ps[1..]));
  }

  lemma FillHead(values: Values, p: Piece, rest: seq<Piece>)
    ensures |FillAll(values, [p] + rest)| == |Fill(values, p)| + |FillAll(values, rest)|
  {
    assert ([p] + rest)[1..] == rest;
  }

  /** Read back as a template, pieces leave no more text than they hold when the tokens of w
      are taken out, and less when there is a new token of w. */
  ghost predicate Shrinks(ps: seq<Piece>, w: string, m: nat) {
    var out: Values := map[w := ""];
    && |FillAll(out, Tokenise(Spell(ps)))| <= |FillAll(out, ps)|
    && (HitOf(ps, m, w) ==> |FillAll(out, Tokenise(Spell(ps)))| < |FillAll(out, ps)|)
  }

  lemma ShrinksAfterPiece(ps: seq<Piece>, w: string, m: nat)
    requires Keyed(ps) && ps != [] && !Hit(ps, 0) && Shrinks(ps[1..], w, if m >= 1 then m - 1 else 0)
    ensures Shrinks(ps, w, m)
  {
    var out: Values := map[w := ""];
    assert ps == [ps[0]] + ps[1..] && ps[0..] == ps;
    if ps[0].Plain? { SpellPlain(ps); } else { SpellToken(ps); }
    FillHead(out, ps[0], Tokenise(Spell(ps[1..])));
    FillHead(out, ps[0], ps[1..]);
    if m >= 1 { HitLater(ps, 1, m, w); }
  }

  lemma TokenHead(s: string)
    requires TokenLength(s) > 0
    ensures HeadPiece(s).Token? && |PieceText(HeadPiece(s))| == TokenLength(s)
    ensures Tokenise(s) == [HeadPiece(s)] + Tokenise(s[TokenLength(s)..])
  {
  }

  lemma {:induction false} PlainFill(values: Values, ps: seq<Piece>, j: nat)
    requires j <= |ps| && forall i | 0 <= i < j :: ps[i].Plain?
    ensures |FillAll(values, ps)| == j + |FillAll(values, ps[j..])|
  {
    if j > 0 {
      PlainFill(values, ps[1..], j - 1);
      assert ps[1..][j - 1..] == ps[j..];
    } else {
      assert ps[0..] == ps;
    }
  }

  lemma HeadGone(s: string, w: string)
    requires TokenLength(s) > 0
    ensures var out: Values := map[w := ""];
            |FillAll(out, Tokenise(s))| ==
              (if HeadPiece(s) == Token(w) then 0 else TokenLength(s)) + |FillAll(out, Tokenise(s[TokenLength(s)..]))|
  {
    TokenHead(s);
    FillHead(map[w := ""], HeadPiece(s), Tokenise(s[TokenLength(s)..]));
  }

  lemma HitLengths(ps: seq<Piece>, w: string, n: nat)
    requires Keyed(ps) && Hit(ps, 0) && n == TokenLength(Spell(ps)) && n <= |ps|
    ensures var out: Values, head := map[w := ""], HeadPiece(Spell(ps));
            && |FillAll(out, Tokenise(Spell(ps)))| ==
                 (if head == Token(w) then 0 else n) + |FillAll(out, Tokenise(Spell(ps[n..])))|
            && |FillAll(out, ps)| == n + |FillAll(out, ps[n..])|
  {
    assert ps[0..] == ps;
    HitIsPlain(ps, n);
    HeadGone(Spell(ps), w);
    PlainFill(map[w := ""], ps, n);
  }

  /** A new token of w is this one, or a later one. */
  lemma HitHereOrLater(ps: seq<Piece>, w: string, m: nat, n: nat)
    requires Keyed(ps) && Hit(ps, 0) && n == TokenLength(Spell(ps)) && n <= |ps| && HitOf(ps, m, w)
    ensures HeadPiece(Spell(ps)) == Token(w) || (m >= n && HitOf(ps[n..], m - n, w))
  {
    assert ps[0..] == ps;
    if m >= n {
      HitLater(ps, n, m, w);
    } else if m > 0 {
      NoHitInside(ps, m, w);
    }
  }

  lemma ShrinksAfterHit(ps: seq<Piece>, w: string, m: nat, n: nat)
    requires Keyed(ps) && Hit(ps, 0) && n == TokenLength(Spell(ps)) && n <= |ps|
    requires Shrinks(ps[n..], w, if m >= n then m - n else 0)
    ensures Shrinks(ps, w, m)
  {
    HitLengths(ps, w, n);
    if HitOf(ps, m, w) { HitHereOrLater(ps, w, m, n); }
  }

  lemma {:induction false} NewTokenShows(ps: seq<Piece>, w: string, m: nat)
    requires Keyed(ps)
    ensures Shrinks(ps, w, m)
    decreases |ps|
  {
    if ps == [] {
      assert Tokenise(Spell(ps)) == [];
    } else if Hit(ps, 0) {
      assert ps[0..] == ps;
      var n := TokenLength(Spell(ps));
      HitIsPlain(ps, n);
      NewTokenShows(ps[n..], w, if m >= n then m - n else 0);
      ShrinksAfterHit(ps, w, m, n);
    } else {
      NewTokenShows(ps[1..], w, if m >= 1 then m - 1 else 0);
      ShrinksAfterPiece(ps, w, m);
    }
  }

  lemma AgreeMeans(first: Values, second: Values, s: string)
    ensures var out := Expand(first, Tokenise(s));
            TwoPassesAgree(first, second, s) <==> FillAll(second, Tokenise(Spell(out))) == FillAll(second, out)
  {
    Expanded(first, second, Tokenise(s));
    RenderFillsPieces(first, s);
    RenderFillsPieces(second, Render(first, s));
    RenderFillsPieces(Joined(first, second), s);
  }

  lemma OutputKeyed(first: Values, s: string)
    ensures Keyed(Expand(first, Tokenise(s)))
  {
    TokeniseSpells(s);
    LeftmostKeyed(Tokenise(s));
    ExpandKeyed(first, Tokenise(s));
  }

  lemma HitDisagrees(first: Values, s: string, m: nat) returns (second: Values)
    requires Hit(Expand(first, Tokenise(s)), m)
    ensures !TwoPassesAgree(first, second, s)
  {
    var out := Expand(first, Tokenise(s));
    var w := HeadPiece(Spell(out[m..])).key;
    second := map[w := ""];
    OutputKeyed(first, s);
    NewTokenShows(out, w, m);
    AgreeMeans(first, second, s);
  }

  ghost predicate AlwaysAgree(first: Values, s: string) {
    forall second :: TwoPassesAgree(first, second, s)
  }

  /** The first pass makes a token that the template has not. */
  ghost predicate MakesToken(first: Values, s: string) {
    exists m: nat :: Hit(Expand(first, Tokenise(s)), m)
  }

  /** For one set of values: the passes agree whatever the second one has exactly when the
      first one makes no new token. */
  lemma AgreeWithoutHit(first: Values, s: string)
    ensures AlwaysAgree(first, s) <==> !MakesToken(first, s)
  {
    var out := Expand(first, Tokenise(s));
    if m: nat :| Hit(out, m) {
      var second := HitDisagrees(first, s, m);
    } else {
      OutputKeyed(first, s);
      LeftmostWithoutHit(out);
      TokenisationUnique(out);
      forall second ensures TwoPassesAgree(first, second, s) { AgreeMeans(first, second, s); }
    }
  }

  // ---- Where a new token comes from --------------------------------------------------

  /** What is left of a token at each point: `>`; `>>` after word characters, or after at
      least one; and all but the first character. */
  predicate Last(x: string) {
    x != "" && x[0] == '>'
  }

  predicate More(x: string) {
    x != "" && if x[0] == '>' then Last(x[1..]) else IsWordChar(x[0]) && More(x[1..])
  }

  predicate Word(x: string) {
    x != "" && IsWordChar(x[0]) && More(x[1..])
  }

  predicate Second(x: string) {
    x != "" && x[0] == '<' && Word(x[1..])
  }

  lemma {:induction false} MoreIsRun(x: string)
    ensures More(x) <==> var k := WordRun(x); k + 2 <= |x| && x[k] == x[k + 1] == '>'
  {
    if x != "" && IsWordChar(x[0]) { MoreIsRun(x[1..]); }
  }

  lemma TokenIsSecond(x: string)
    ensures TokenLength(x) > 0 <==> x != "" && x[0] == '<' && Second(x[1..])
  {
    if |x| > 2 && x[0] == x[1] == '<' {
      assert x[1..][1..] == x[2..];
      MoreIsRun(x[2..]);
      if IsWordChar(x[2]) { MoreIsRun(x[2..][1..]); }
    }
  }

  predicate AllWord(v: string) {
    forall i | 0 <= i < |v| :: IsWordChar(v[i])
  }

  /** A word, and the first closing marker character. */
  predicate WordThenClose(v: string) {
    v != "" && AllWord(v[..|v| - 1]) && v[|v| - 1] == '>'
  }

  lemma {:induction false} MoreThrough(v: string, r: string)
    requires NoPair(v, '>')
    ensures More(v + r) <==> (AllWord(v) && More(r)) || (WordThenClose(v) && Last(r))
  {
    if v == "" {
      assert v + r == r;
    } else {
      assert (v + r)[1..] == v[1..] + r;
      if v[0] == '>' {
        assert !AllWord(v);
        if |v| > 1 {
          assert v[0 + 1] != '>';
          assert v[..|v| - 1][0] == '>' && !AllWord(v[..|v| - 1]);
        }
      } else if IsWordChar(v[0]) {
        NoPairTail(v, '>');
        MoreThrough(v[1..], r);
        WordPrepended(v);
      } else {
        assert |v| > 1 ==> v[..|v| - 1][0] == v[0];
      }
    }
  }

  lemma WordPrepended(v: string)
    requires v != "" && IsWordChar(v[0])
    ensures AllWord(v) <==> AllWord(v[1..])
    ensures WordThenClose(v) <==> WordThenClose(v[1..])
  {
    assert v == [v[0]] + v[1..];
    if |v| > 1 {
      var u := v[1..];
      assert u[|u| - 1] == v[|v| - 1];
      assert v[..|v| - 1] == [v[0]] + u[..|u| - 1];
    }
  }

  lemma WordThrough(v: string, r: string)
    requires NoPair(v, '>')
    ensures Word(v + r) <==>
              if v == "" then Word(r) else (AllWord(v) && More(r)) || (|v| >= 2 && WordThenClose(v) && Last(r))
  {
    if v == "" {
      assert v + r == r;
    } else {
      MoreThrough(v, r);
      assert |v| == 1 && v[0] == '>' ==> !AllWord(v);
      assert |v| >= 2 ==> v[..|v| - 1][0] == v[0];
    }
  }

  lemma LastThrough(v: string, r: string)
    ensures Last(v + r) <==> if v == "" then Last(r) else v[0] == '>'
  {
    if v == "" { assert v + r == r; }
  }

  lemma SecondThrough(v: string, r: string)
    ensures Second(v + r) <==> if v == "" then Second(r) else v[0] == '<' && Word(v[1..] + r)
  {
    if v == "" { assert v + r == r; } else { assert (v + r)[1..] == v[1..] + r; }
  }

  // ---- Four places make a token ------------------------------------------------------

  /** What piece n gives. */
  function At(first: Values, ps: seq<Piece>, n: nat): string
    requires n < |ps|
  {
    Fill(first, ps[n])
  }

  /** The text from piece n on. */
  function From(first: Values, ps: seq<Piece>, n: nat): string
    requires n <= |ps|
  {
    FillAll(first, ps[n..])
  }

  lemma FromStep(first: Values, ps: seq<Piece>, n: nat)
    requires n < |ps|
    ensures From(first, ps, n) == At(first, ps, n) + From(first, ps, n + 1)
  {
    assert ps[n..][1..] == ps[n + 1..];
  }

  ghost predicate Empty(first: Values, ps: seq<Piece>, i: nat, j: nat)
    requires j <= |ps|
  {
    forall n | i <= n < j :: At(first, ps, n) == ""
  }

  /** Some piece from i up to j gives text. */
  ghost predicate SomeText(first: Values, ps: seq<Piece>, i: nat, j: nat)
    requires j <= |ps|
    decreases j - i
  {
    i < j && (At(first, ps, i) != "" || SomeText(first, ps, i + 1, j))
  }

  lemma {:induction false} SomeTextMeans(first: Values, ps: seq<Piece>, i: nat, j: nat)
    requires j <= |ps|
    ensures SomeText(first, ps, i, j) <==> exists n | i <= n < j :: At(first, ps, n) != ""
    decreases j - i
  {
    if i < j { SomeTextMeans(first, ps, i + 1, j); }
  }

  /** What pieces b to c hold when there is a word between a marker's second character and
      the other's first. */
  ghost predicate WordBetween(first: Values, ps: seq<Piece>, b: nat, c: nat)
    requires b <= c < |ps|
  {
    && At(first, ps, b) != "" && At(first, ps, b)[0] == '<'
    && (b == c ==> |At(first, ps, b)| >= 3 && WordThenClose(At(first, ps, b)[1..]))
    && (b < c ==>
          && AllWord(At(first, ps, b)[1..]) && WordThenClose(At(first, ps, c))
          && (forall n | b < n < c :: AllWord(At(first, ps, n)))
          && (|At(first, ps, b)| > 1 || |At(first, ps, c)| > 1 || SomeText(first, ps, b + 1, c)))
  }

  /** What follows a piece that begins with the opening marker's second character. */
  ghost predicate Follows(first: Values, ps: seq<Piece>, b: nat, c: nat, d: nat) {
    && b <= c < d < |ps| && WordBetween(first, ps, b, c)
    && Empty(first, ps, c + 1, d) && Last(At(first, ps, d))
  }

  /** Pieces a to d, filled in, make a token that begins with the last character of a and
      ends with the first one of d. */
  ghost predicate Makes(first: Values, ps: seq<Piece>, a: nat, b: nat, c: nat, d: nat) {
    && a < b <= c < d < |ps|
    && At(first, ps, a) != "" && At(first, ps, a)[|At(first, ps, a)| - 1] == '<'
    && Empty(first, ps, a + 1, b) && Follows(first, ps, b, c, d)
  }

  /** No value, and no plain character, has a pair of closing markers. */
  lemma PiecesHard(first: Values, ps: seq<Piece>, n: nat)
    requires Hard(first) && n < |ps| && (ps[n].Plain? || ps[n].key in first)
    ensures NoPair(At(first, ps, n), '<') && NoPair(At(first, ps, n), '>')
  {
  }

  /** A token that stays is part of no other. */
  lemma StayingToken(first: Values, ps: seq<Piece>, n: nat)
    requires n < |ps| && ps[n].Token? && ps[n].key !in first
    ensures var x := From(first, ps, n); !Last(x) && !More(x) && !Word(x) && !Second(x)
  {
    FromStep(first, ps, n);
    var x := From(first, ps, n);
    assert x[0] == '<' && x[1] == '<' && x[1..][0] == '<';
  }

  lemma {:induction false} FindClose(first: Values, ps: seq<Piece>, n: nat) returns (d: nat)
    requires n <= |ps| && Last(From(first, ps, n))
    ensures n <= d < |ps| && Last(At(first, ps, d))
    ensures Empty(first, ps, n, d)
    decreases |ps| - n
  {
    FromStep(first, ps, n);
    LastThrough(At(first, ps, n), From(first, ps, n + 1));
    if At(first, ps, n) == "" { d := FindClose(first, ps, n + 1); } else { d := n; }
  }

  lemma InsideWord(v: string, r: string, some: bool)
    requires NoPair(v, '>') && if some then More(v + r) else Word(v + r)
    ensures || (WordThenClose(v) && Last(r) && (some || |v| > 1))
            || (AllWord(v) && if some || v != "" then More(r) else Word(r))
  {
    MoreThrough(v, r);
    WordThrough(v, r);
  }

  /** The end of the word, and that of the token: `some` says that some of the word has been
      seen. */
  lemma {:induction false} FindWordEnd(first: Values, ps: seq<Piece>, n: nat, some: bool) returns (c: nat, d: nat)
    requires Hard(first) && n <= |ps| && if some then More(From(first, ps, n)) else Word(From(first, ps, n))
    ensures n <= c < d < |ps| && WordThenClose(At(first, ps, c))
    ensures forall i | n <= i < c :: AllWord(At(first, ps, i))
    ensures some || |At(first, ps, c)| > 1 || SomeText(first, ps, n, c)
    ensures Empty(first, ps, c + 1, d) && Last(At(first, ps, d))
    decreases |ps| - n
  {
    FromStep(first, ps, n);
    if ps[n].Token? && ps[n].key !in first { StayingToken(first, ps, n); }
    PiecesHard(first, ps, n);
    var v, rest := At(first, ps, n), From(first, ps, n + 1);
    InsideWord(v, rest, some);
    if WordThenClose(v) && Last(rest) && (some || |v| > 1) {
      c := n;
      d := FindClose(first, ps, n + 1);
    } else {
      c, d := FindWordEnd(first, ps, n + 1, some || v != "");
    }
  }

  /** The rest of a token after a text that begins with a marker: the text holds all of the
      word, or part of it. */
  lemma AfterMarker(v: string, r: string)
    requires v != "" && NoPair(v, '>')
    ensures Word(v[1..] + r) <==>
              || (|v| >= 3 && WordThenClose(v[1..]) && Last(r))
              || (AllWord(v[1..]) && if |v| > 1 then More(r) else Word(r))
  {
    NoPairTail(v, '>');
    WordThrough(v[1..], r);
  }

  lemma FindWord(first: Values, ps: seq<Piece>, b: nat) returns (c: nat, d: nat)
    requires Hard(first) && b < |ps| && (ps[b].Plain? || ps[b].key in first)
    requires At(first, ps, b) != "" && At(first, ps, b)[0] == '<'
    requires Word(At(first, ps, b)[1..] + From(first, ps, b + 1))
    ensures Follows(first, ps, b, c, d)
  {
    PiecesHard(first, ps, b);
    var v := At(first, ps, b);
    AfterMarker(v, From(first, ps, b + 1));
    if |v| >= 3 && WordThenClose(v[1..]) && Last(From(first, ps, b + 1)) {
      c := b;
      d := FindClose(first, ps, b + 1);
    } else {
      c, d := FindWordEnd(first, ps, b + 1, |v| > 1);
    }
  }

  lemma {:induction false} FindSecond(first: Values, ps: seq<Piece>, n: nat) returns (b: nat, c: nat, d: nat)
    requires Hard(first) && n <= |ps| && Second(From(first, ps, n))
    ensures n <= b && Follows(first, ps, b, c, d) && Empty(first, ps, n, b)
    decreases |ps| - n
  {
    FromStep(first, ps, n);
    if ps[n].Token? && ps[n].key !in first { StayingToken(first, ps, n); }
    SecondThrough(At(first, ps, n), From(first, ps, n + 1));
    if At(first, ps, n) == "" {
      b, c, d := FindSecond(first, ps, n + 1);
    } else {
      b := n;
      c, d := FindWord(first, ps, n);
    }
  }

  lemma {:induction false} CloseSeen(first: Values, ps: seq<Piece>, n: nat, d: nat)
    requires n <= d < |ps| && Last(At(first, ps, d)) && Empty(first, ps, n, d)
    ensures Last(From(first, ps, n))
    decreases d - n
  {
    FromStep(first, ps, n);
    LastThrough(At(first, ps, n), From(first, ps, n + 1));
    if n < d { CloseSeen(first, ps, n + 1, d); }
  }

  lemma {:induction false} WordSeen(first: Values, ps: seq<Piece>, n: nat, c: nat, some: bool)
    requires n <= c < |ps| && WordThenClose(At(first, ps, c)) && Last(From(first, ps, c + 1))
    requires forall i | n <= i < c :: AllWord(At(first, ps, i))
    requires some || |At(first, ps, c)| > 1 || SomeText(first, ps, n, c)
    ensures if some then More(From(first, ps, n)) else Word(From(first, ps, n))
    decreases c - n
  {
    FromStep(first, ps, n);
    var v, rest := At(first, ps, n), From(first, ps, n + 1);
    OneMarkerOnly(v);
    MoreThrough(v, rest);
    WordThrough(v, rest);
    if n < c { WordSeen(first, ps, n + 1, c, some || v != ""); }
  }

  lemma OneMarkerOnly(v: string)
    requires AllWord(v) || WordThenClose(v)
    ensures NoPair(v, '>')
  {
    forall i | 0 <= i < |v| - 1 ensures v[i] != '>' {
      if WordThenClose(v) { assert v[i] == v[..|v| - 1][i]; }
    }
  }

  lemma {:induction false} SecondSeen(first: Values, ps: seq<Piece>, n: nat, b: nat, c: nat, d: nat)
    requires n <= b && Follows(first, ps, b, c, d) && Empty(first, ps, n, b)
    ensures Second(From(first, ps, n))
    decreases b - n
  {
    FromStep(first, ps, n);
    SecondThrough(At(first, ps, n), From(first, ps, n + 1));
    if n < b { SecondSeen(first, ps, n + 1, b, c, d); } else { WordIsSeen(first, ps, b, c, d); }
  }

  lemma MarkerThenWord(v: string)
    requires v != "" && v[0] == '<' && (AllWord(v[1..]) || WordThenClose(v[1..]))
    ensures NoPair(v, '>')
  {
    OneMarkerOnly(v[1..]);
    NoPairPrepend('<', v[1..], '>');
    assert v == ['<'] + v[1..];
  }

  lemma RestIsSeen(first: Values, ps: seq<Piece>, b: nat, c: nat, d: nat)
    requires Follows(first, ps, b, c, d) && b < c
    ensures if |At(first, ps, b)| > 1 then More(From(first, ps, b + 1)) else Word(From(first, ps, b + 1))
  {
    CloseSeen(first, ps, c + 1, d);
    WordSeen(first, ps, b + 1, c, |At(first, ps, b)| > 1);
  }

  lemma WordIsSeen(first: Values, ps: seq<Piece>, b: nat, c: nat, d: nat)
    requires Follows(first, ps, b, c, d)
    ensures Word(At(first, ps, b)[1..] + From(first, ps, b + 1))
  {
    MarkerThenWord(At(first, ps, b));
    AfterMarker(At(first, ps, b), From(first, ps, b + 1));
    if b < c { RestIsSeen(first, ps, b, c, d); } else { CloseSeen(first, ps, c + 1, d); }
  }

  // ---- New tokens and the four places ------------------------------------------------

  lemma ExpandStep(first: Values, ps: seq<Piece>, a: nat)
    requires a < |ps|
    ensures ps[..a + 1] != [] && ps[..a + 1][0] == ps[0] && ps[..a + 1][1..] == ps[1..][..a]
    ensures Expand(first, ps[..a + 1]) == ExpandOne(first, ps[0]) + Expand(first, ps[1..][..a])
  {
    assert ps[..a + 1][1..] == ps[1..][..a];
  }

  lemma {:induction false} ExpandAppend(first: Values, x: seq<Piece>, y: seq<Piece>)
    ensures Expand(first, x + y) == Expand(first, x) + Expand(first, y)
  {
    if x == [] {
      assert x + y == y;
    } else {
      ExpandAppend(first, x[1..], y);
      TailOfAppend(x, y);
    }
  }

  /** Which piece is behind position m, and how far into it that is. */
  lemma {:induction false} FindPiece(first: Values, ps: seq<Piece>, m: nat) returns (a: nat, o: nat)
    requires m < |Expand(first, ps)|
    ensures a < |ps| && o < |ExpandOne(first, ps[a])| && m == |Expand(first, ps[..a])| + o
    decreases |ps|
  {
    var k := |ExpandOne(first, ps[0])|;
    if m < k {
      a, o := 0, m;
      assert Expand(first, ps[..0]) == [];
    } else {
      var a', o' := FindPiece(first, ps[1..], m - k);
      a, o := a' + 1, o';
      ExpandStep(first, ps, a');
    }
  }

  lemma DropAppend<T>(x: seq<T>, y: seq<T>, z: seq<T>, o: nat)
    requires o < |y|
    ensures (x + (y + z))[|x| + o..] == y[o..] + z && (x + (y + z))[|x| + o] == y[o]
  {
  }

  lemma SpellDrop(out: seq<Piece>, x: seq<Piece>, y: seq<Piece>, z: seq<Piece>, o: nat, m: nat)
    requires out == x + (y + z) && o < |y| && m == |x| + o
    ensures m < |out| && out[m] == y[o] && Spell(out[m..]) == Spell(y[o..]) + Spell(z)
  {
    DropAppend(x, y, z, o);
    SpellAppend(y[o..], z);
  }

  lemma ExpandAround(first: Values, ps: seq<Piece>, a: nat)
    requires a < |ps|
    ensures Expand(first, ps) == Expand(first, ps[..a]) + (ExpandOne(first, ps[a]) + Expand(first, ps[a + 1..]))
  {
    assert ps == ps[..a] + ps[a..];
    ExpandAppend(first, ps[..a], ps[a..]);
    assert ps[a..][1..] == ps[a + 1..];
  }

  lemma OneIsChars(first: Values, p: Piece)
    requires p.Plain? || p.key in first
    ensures |ExpandOne(first, p)| == |Fill(first, p)| && forall i | 0 <= i < |ExpandOne(first, p)| :: ExpandOne(first, p)[i].Plain?
  {
    if p.Token? { CharsAre(first[p.key]); }
  }

  lemma SpellFromInside(first: Values, p: Piece, o: nat)
    requires o < |ExpandOne(first, p)| && ExpandOne(first, p)[o].Plain?
    ensures (p.Plain? || p.key in first) && o < |Fill(first, p)|
    ensures Spell(ExpandOne(first, p)[o..]) == Fill(first, p)[o..]
  {
    if p.Token? && p.key in first {
      CharsAre(first[p.key]);
      CharsDrop(first[p.key], o);
      CharsFill(map[], first[p.key][o..]);
    } else {
      OneExpanded(first, map[], p);
      assert [p][0..] == [p];
    }
  }

  lemma CharsDrop(v: string, m: nat)
    requires m <= |v|
    ensures |Chars(v)| == |v| && Chars(v)[m..] == Chars(v[m..])
  {
    CharsAre(v);
    CharsAre(v[m..]);
  }

  lemma ExpandedFrom(first: Values, ps: seq<Piece>, a: nat, o: nat, m: nat)
    requires a < |ps| && o < |ExpandOne(first, ps[a])| && m == |Expand(first, ps[..a])| + o
    ensures m < |Expand(first, ps)| && Expand(first, ps)[m] == ExpandOne(first, ps[a])[o]
    ensures Spell(Expand(first, ps)[m..]) == Spell(ExpandOne(first, ps[a])[o..]) + Spell(Expand(first, ps[a + 1..]))
  {
    ExpandAround(first, ps, a);
    SpellDrop(Expand(first, ps), Expand(first, ps[..a]), ExpandOne(first, ps[a]), Expand(first, ps[a + 1..]), o, m);
  }

  /** From inside a piece on: the rest of it, and the later ones. */
  lemma PieceFrom(first: Values, ps: seq<Piece>, a: nat, o: nat, m: nat)
    requires a < |ps| && (ps[a].Plain? || ps[a].key in first) && o < |At(first, ps, a)|
    requires m == |Expand(first, ps[..a])| + o
    ensures m < |Expand(first, ps)| && Expand(first, ps)[m].Plain?
    ensures Spell(Expand(first, ps)[m..]) == At(first, ps, a)[o..] + From(first, ps, a + 1)
  {
    OneIsChars(first, ps[a]);
    ExpandedFrom(first, ps, a, o, m);
    SpellFromInside(first, ps[a], o);
    Expanded(first, map[], ps[a + 1..]);
  }

  /** The piece behind a plain character, and how far into its text that is. */
  lemma Behind(first: Values, ps: seq<Piece>, m: nat) returns (a: nat, o: nat)
    requires m < |Expand(first, ps)| && Expand(first, ps)[m].Plain?
    ensures a < |ps| && (ps[a].Plain? || ps[a].key in first) && o < |At(first, ps, a)|
    ensures Spell(Expand(first, ps)[m..]) == At(first, ps, a)[o..] + From(first, ps, a + 1)
  {
    a, o := FindPiece(first, ps, m);
    ExpandAround(first, ps, a);
    DropAppend(Expand(first, ps[..a]), ExpandOne(first, ps[a]), Expand(first, ps[a + 1..]), o);
    SpellFromInside(first, ps[a], o);
    PieceFrom(first, ps, a, o, m);
  }

  /** The other way round. */
  lemma InFront(first: Values, ps: seq<Piece>, a: nat) returns (m: nat)
    requires a < |ps| && (ps[a].Plain? || ps[a].key in first) && At(first, ps, a) != ""
    ensures m < |Expand(first, ps)| && Expand(first, ps)[m].Plain?
    ensures var v := At(first, ps, a); Spell(Expand(first, ps)[m..]) == v[|v| - 1..] + From(first, ps, a + 1)
  {
    var o := |At(first, ps, a)| - 1;
    m := |Expand(first, ps[..a])| + o;
    PieceFrom(first, ps, a, o, m);
  }

  ghost predicate FourMake(first: Values, ps: seq<Piece>) {
    exists a: nat, b: nat, c: nat, d: nat :: Makes(first, ps, a, b, c, d)
  }

  /** A first pass makes a new token exactly when four pieces of the template do. */
  lemma MakesTokenMeans(first: Values, s: string)
    requires Hard(first)
    ensures MakesToken(first, s) <==> FourMake(first, Tokenise(s))
  {
    var ps := Tokenise(s);
    if m: nat :| Hit(Expand(first, ps), m) {
      var a, b, c, d := HitMakes(first, ps, m);
    }
    if a: nat, b: nat, c: nat, d: nat :| Makes(first, ps, a, b, c, d) {
      var m := MakesHit(first, ps, a, b, c, d);
    }
  }

  lemma HitMakes(first: Values, ps: seq<Piece>, m: nat) returns (a: nat, b: nat, c: nat, d: nat)
    requires Hard(first) && Hit(Expand(first, ps), m)
    ensures Makes(first, ps, a, b, c, d)
  {
    var o;
    a, o := Behind(first, ps, m);
    PiecesHard(first, ps, a);
    var v, rest := At(first, ps, a), From(first, ps, a + 1);
    var x := v[o..] + rest;
    TokenIsSecond(x);
    assert x[0] == v[o] && x[1] == '<';
    assert o == |v| - 1;
    assert x[1..] == rest;
    b, c, d := FindSecond(first, ps, a + 1);
  }

  lemma TokenAtMarker(v: string, rest: string)
    requires v != "" && v[|v| - 1] == '<' && Second(rest)
    ensures TokenLength(v[|v| - 1..] + rest) > 0
  {
    var x := v[|v| - 1..] + rest;
    assert x[1..] == rest;
    TokenIsSecond(x);
  }

  lemma MakesHit(first: Values, ps: seq<Piece>, a: nat, b: nat, c: nat, d: nat) returns (m: nat)
    requires Makes(first, ps, a, b, c, d)
    ensures Hit(Expand(first, ps), m)
  {
    SecondSeen(first, ps, a + 1, b, c, d);
    TokenAtMarker(At(first, ps, a), From(first, ps, a + 1));
    m := InFront(first, ps, a);
  }

  // ---- The exact condition -----------------------------------------------------------

  lemma KeptText(p: Piece)
    requires p.Token?
    ensures var v := PieceText(p);
            && |v| >= 4 && v[0] == v[1] == '<' && v[|v| - 1] == '>'
            && !AllWord(v) && !WordThenClose(v) && !AllWord(v[1..]) && !WordThenClose(v[1..])
  {
    var v := PieceText(p);
    assert v[1..][0] == '<' && v[..|v| - 1][0] == '<' && v[1..][..|v| - 2][0] == '<';
  }

  /** A token that stays plays no part in another. */
  lemma PartsAreFilled(first: Values, p: Piece)
    requires var v := Fill(first, p);
             || AllWord(v) || WordThenClose(v) || v[|v| - 1] == '<' || v[0] == '>'
             || AllWord(v[1..]) || WordThenClose(v[1..])
    ensures p.Plain? || IsHole(first.Keys, p)
  {
    if p.Token? { KeptText(p); }
  }

  /** The four markers hold no words, and all else does. */
  lemma MarkersAndWords(first: Values, ps: seq<Piece>, a: nat, b: nat, c: nat, d: nat)
    requires Makes(first, ps, a, b, c, d)
    ensures !AllWord(At(first, ps, a)) && !AllWord(At(first, ps, b)) && !AllWord(At(first, ps, c)) && !AllWord(At(first, ps, d))
    ensures forall n | a < n < d && n != b && n != c :: AllWord(At(first, ps, n))
  {
    forall n: nat | a < n < d && n != b && n != c ensures AllWord(At(first, ps, n)) {
      assert b < n < c || Between(a, b, c, d, n);
    }
  }

  lemma WordPiece(first: Values, p: Piece)
    requires AllWord(Fill(first, p))
    ensures IsHole(first.Keys, p) || (p.Plain? && IsWordChar(p.c))
    ensures Fill(first, p) == "" ==> IsHole(first.Keys, p)
  {
    PartsAreFilled(first, p);
    if p.Plain? { assert Fill(first, p)[0] == p.c; }
  }

  lemma MarkerPieces(first: Values, ps: seq<Piece>, a: nat, b: nat, c: nat, d: nat)
    requires Makes(first, ps, a, b, c, d)
    ensures var keys := first.Keys;
            CanBe(keys, ps[a], '<') && CanBe(keys, ps[b], '<') && CanBe(keys, ps[c], '>') && CanBe(keys, ps[d], '>')
  {
    PartsAreFilled(first, ps[a]);
    PartsAreFilled(first, ps[b]);
    PartsAreFilled(first, ps[c]);
    PartsAreFilled(first, ps[d]);
  }

  /** Values that make a token between these pieces show that the pieces can close. */
  lemma MadeCloses(first: Values, ps: seq<Piece>, a: nat, b: nat, c: nat, d: nat)
    requires Makes(first, ps, a, b, c, d)
    ensures Closes(first.Keys, ps, a, b, c, d)
  {
    MarkerPieces(first, ps, a, b, c, d);
    MarkersAndWords(first, ps, a, b, c, d);
    forall n: nat | n < |ps| && Between(a, b, c, d, n) ensures IsHole(first.Keys, ps[n]) && At(first, ps, n) == "" {
      assert At(first, ps, n) == "";
      WordPiece(first, ps[n]);
    }
    forall n: nat | b < n < c ensures IsHole(first.Keys, ps[n]) || (ps[n].Plain? && IsWordChar(ps[n].c)) {
      assert AllWord(At(first, ps, n));
      WordPiece(first, ps[n]);
    }
    forall n: nat | a < n < d && n != b && n != c ensures ps[n] !in {ps[a], ps[b], ps[c], ps[d]} {
      assert AllWord(At(first, ps, n));
    }
    SomeTextMeans(first, ps, b + 1, c);
  }

  /** The value for a key by the part its tokens play; the first part it has decides. */
  function ValueFor(ps: seq<Piece>, a: nat, b: nat, c: nat, d: nat, t: Piece): string
    requires a < b <= c < d < |ps|
  {
    if t == ps[a] then (if t == ps[d] then "><" else "<")
    else if t == ps[d] then ">"
    else if t == ps[b] then (if b == c then "<x>" else "<x")
    else if t == ps[c] then "x>"
    else if exists n: nat | n < |ps| :: Between(a, b, c, d, n) && ps[n] == t then ""
    else "x"
  }

  function Choice(keys: set<string>, ps: seq<Piece>, a: nat, b: nat, c: nat, d: nat): Values
    requires a < b <= c < d < |ps|
  {
    map k | k in keys :: ValueFor(ps, a, b, c, d, Token(k))
  }

  lemma ChoiceAt(keys: set<string>, ps: seq<Piece>, a: nat, b: nat, c: nat, d: nat, n: nat)
    requires a < b <= c < d < |ps| && n < |ps|
    ensures var first := Choice(keys, ps, a, b, c, d);
            At(first, ps, n) == if IsHole(keys, ps[n]) then ValueFor(ps, a, b, c, d, ps[n]) else PieceText(ps[n])
  {
  }

  lemma ChoiceHard(keys: set<string>, ps: seq<Piece>, a: nat, b: nat, c: nat, d: nat)
    requires a < b <= c < d < |ps|
    ensures var first := Choice(keys, ps, a, b, c, d); first.Keys == keys && Hard(first)
  {
  }

  lemma ChoiceMarkers(keys: set<string>, ps: seq<Piece>, a: nat, b: nat, c: nat, d: nat)
    requires Closes(keys, ps, a, b, c, d)
    ensures var first := Choice(keys, ps, a, b, c, d);
            && At(first, ps, a) in {"<", "><"} && At(first, ps, d) in {">", "><"}
            && (b == c ==> At(first, ps, b) == "<x>")
            && (b < c ==> At(first, ps, b) == (if IsHole(keys, ps[b]) && ps[b] != ps[a] then "<x" else "<"))
            && (b < c ==> At(first, ps, c) == (if IsHole(keys, ps[c]) && ps[c] != ps[d] then "x>" else ">"))
  {
    ChoiceAt(keys, ps, a, b, c, d, a);
    ChoiceAt(keys, ps, a, b, c, d, b);
    ChoiceAt(keys, ps, a, b, c, d, c);
    ChoiceAt(keys, ps, a, b, c, d, d);
  }

  lemma ChoiceBetween(keys: set<string>, ps: seq<Piece>, a: nat, b: nat, c: nat, d: nat)
    requires Closes(keys, ps, a, b, c, d)
    ensures var first := Choice(keys, ps, a, b, c, d);
            && Empty(first, ps, a + 1, b) && Empty(first, ps, c + 1, d)
            && (forall n: nat | b < n < c :: AllWord(At(first, ps, n)))
            && (forall n: nat | b < n < c && (forall m: nat | m < |ps| && Between(a, b, c, d, m) :: ps[n] != ps[m]) :: At(first, ps, n) != "")
  {
    var first := Choice(keys, ps, a, b, c, d);
    forall n: nat | n < |ps| && (a < n < b || c < n < d) ensures At(first, ps, n) == "" {
      assert Between(a, b, c, d, n);
      ChoiceAt(keys, ps, a, b, c, d, n);
    }
    forall n: nat | b < n < c
      ensures AllWord(At(first, ps, n))
      ensures (forall m: nat | m < |ps| && Between(a, b, c, d, m) :: ps[n] != ps[m]) ==> At(first, ps, n) != ""
    {
      ChoiceAt(keys, ps, a, b, c, d, n);
    }
  }

  lemma ChoiceHasWord(keys: set<string>, ps: seq<Piece>, a: nat, b: nat, c: nat, d: nat)
    requires Closes(keys, ps, a, b, c, d) && b < c
    ensures var first := Choice(keys, ps, a, b, c, d);
            |At(first, ps, b)| > 1 || |At(first, ps, c)| > 1 || SomeText(first, ps, b + 1, c)
  {
    ChoiceMarkers(keys, ps, a, b, c, d);
    var first := Choice(keys, ps, a, b, c, d);
    if At(first, ps, b) == "<" && At(first, ps, c) == ">" {
      ChoiceBetween(keys, ps, a, b, c, d);
      var n: nat :| b < n < c && forall m: nat | m < |ps| && Between(a, b, c, d, m) :: ps[n] != ps[m];
      assert At(first, ps, n) != "";
      SomeTextMeans(first, ps, b + 1, c);
    }
  }

  /** Where pieces can close these values make them. */
  lemma ClosesMade(keys: set<string>, ps: seq<Piece>, a: nat, b: nat, c: nat, d: nat)
    requires Closes(keys, ps, a, b, c, d)
    ensures Makes(Choice(keys, ps, a, b, c, d), ps, a, b, c, d)
  {
    ChoiceMarkers(keys, ps, a, b, c, d);
    ChoiceBetween(keys, ps, a, b, c, d);
    if b < c { ChoiceHasWord(keys, ps, a, b, c, d); }
  }

  /** The two passes agree for all hardened values of these keys, and all values of the
      second pass, exactly when no four pieces of the template can close. */
  lemma TwoPassesAgreeExactlyWhen(keys: set<string>, s: string)
    ensures (forall first: Values | first.Keys == keys && Hard(first) :: AlwaysAgree(first, s))
            <==> !CanClose(keys, Tokenise(s))
  {
    var ps := Tokenise(s);
    forall first: Values | first.Keys == keys && Hard(first) && !AlwaysAgree(first, s) ensures CanClose(keys, ps) {
      AgreeWithoutHit(first, s);
      MakesTokenMeans(first, s);
      var a: nat, b: nat, c: nat, d: nat :| Makes(first, ps, a, b, c, d);
      MadeCloses(first, ps, a, b, c, d);
    }
    if a: nat, b: nat, c: nat, d: nat :| Closes(keys, ps, a, b, c, d) {
      var first := Choice(keys, ps, a, b, c, d);
      ClosesMade(keys, ps, a, b, c, d);
      ChoiceHard(keys, ps, a, b, c, d);
      MakesTokenMeans(first, s);
      AgreeWithoutHit(first, s);
    }
  }

  function HardenAll(raw: map<string, Option<string>>, maxLen: Option<int>): Values {
    map k | k in raw :: Harden(raw[k], maxLen)
  }

  /** Hardened values are these, and all of these. */
  lemma HardIsHardened(first: Values, raw: map<string, Option<string>>, maxLen: Option<int>)
    ensures HardenAll(raw, maxLen).Keys == raw.Keys && Hard(HardenAll(raw, maxLen))
    ensures Hard(first) ==> HardenAll(map k | k in first :: Some(first[k]), None) == first
  {
    forall k | k in raw ensures NoPair(Harden(raw[k], maxLen), '<') && NoPair(Harden(raw[k], maxLen), '>') {
      HardenClears(raw[k], maxLen);
    }
    if Hard(first) {
      forall k | k in first ensures Harden(Some(first[k]), None) == first[k] {
        NothingToReplace(first[k], '<', "\U{2039}\U{2039}");
        NothingToReplace(first[k], '>', "\U{203A}\U{203A}");
      }
    }
  }

  /** In terms of the values before they are hardened. */
  lemma HardenedPassesAgreeExactlyWhen(keys: set<string>, s: string)
    ensures (forall raw: map<string, Option<string>>, maxLen | raw.Keys == keys :: AlwaysAgree(HardenAll(raw, maxLen), s))
            <==> !CanClose(keys, Tokenise(s))
  {
    TwoPassesAgreeExactlyWhen(keys, s);
    if !CanClose(keys, Tokenise(s)) {
      forall raw: map<string, Option<string>>, maxLen | raw.Keys == keys ensures AlwaysAgree(HardenAll(raw, maxLen), s) {
        HardIsHardened(map[], raw, maxLen);
      }
    } else {
      var first: Values :| first.Keys == keys && Hard(first) && !AlwaysAgree(first, s);
      var raw := map k | k in first :: Some(first[k]);
      HardIsHardened(first, raw, None);
      assert raw.Keys == keys && !AlwaysAgree(HardenAll(raw, None), s);
    }
  }

  /** Between borders nothing can close. */
  lemma BorderedNeverCloses(keys: set<string>, s: string)
    requires TokensBordered(s)
    ensures !CanClose(keys, Tokenise(s))
  {
    forall first: Values | first.Keys == keys && Hard(first) ensures AlwaysAgree(first, s) {
      forall second ensures TwoPassesAgree(first, second, s) { TwoPassesAreOne(first, second, s); }
    }
    TwoPassesAgreeExactlyWhen(keys, s);
  }
}

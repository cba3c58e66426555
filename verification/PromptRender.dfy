/** `render_template` and `harden_untrusted`. Values are taken after `str()`. */
module PromptRender {
  import opened Wrappers
  import opened PyText

  type Values = map<string, string>

  // ---- Rendering ---------------------------------------------------------------------

  /** Length of the match of `<<([A-Za-z0-9_]+)>>` at the start of s, 0 if none. */
  function TokenLength(s: string): (n: nat)
    ensures n <= |s| && (n == 0 || n >= 5)
  {
    if |s| < 2 || s[0] != '<' || s[1] != '<' then 0
    else
      var k := WordRun(s[2..]);
      if k > 0 && k + 4 <= |s| && s[k + 2] == '>' && s[k + 3] == '>' then k + 4 else 0
  }

  function Lookup(values: Values, token: string): string
    requires |token| >= 5
  {
    var key := token[2..|token| - 2];
    if key in values then values[key] else token
  }

  /** One scan from left to right: what is put in is not looked at again. */
  function Render(values: Values, s: string): string
    decreases |s|
  {
    if s == "" then ""
    else
      var n := TokenLength(s);
      if n > 0 then Lookup(values, s[..n]) + Render(values, s[n..])
      else [s[0]] + Render(values, s[1..])
  }

  // ---- The tokenisation behind it ----------------------------------------------------

  datatype Piece = Plain(c: char) | Token(key: string)

  function PieceText(p: Piece): string {
    match p
    case Plain(c) => [c]
    case Token(key) => "<<" + (key + ">>")
  }

  function Spell(pieces: seq<Piece>): string {
    if pieces == [] then "" else PieceText(pieces[0]) + Spell(pieces[1..])
  }

  predicate IsKey(key: string) {
    key != "" && forall i | 0 <= i < |key| :: IsWordChar(key[i])
  }

  /** Every token has a key, and no plain character stands where a token could. */
  ghost predicate IsLeftmost(pieces: seq<Piece>) {
    pieces != [] ==>
      && (pieces[0].Token? ==> IsKey(pieces[0].key))
      && (pieces[0].Plain? ==> TokenLength(Spell(pieces)) == 0)
      && IsLeftmost(pieces[1..])
  }

  function Tokenise(s: string): seq<Piece>
    decreases |s|
  {
    if s == "" then []
    else
      var n := TokenLength(s);
      if n > 0 then [Token(s[2..n - 2])] + Tokenise(s[n..]) else [Plain(s[0])] + Tokenise(s[1..])
  }

  /** A piece filled in: a known key gives its value as it is. */
  function Fill(values: Values, p: Piece): string {
    if p.Token? && p.key in values then values[p.key] else PieceText(p)
  }

  function FillAll(values: Values, pieces: seq<Piece>): string {
    if pieces == [] then "" else Fill(values, pieces[0]) + FillAll(values, pieces[1..])
  }

  lemma {:induction false} WordRunWord(s: string)
    ensures forall i | 0 <= i < WordRun(s) :: IsWordChar(s[i])
    ensures WordRun(s) < |s| ==> !IsWordChar(s[WordRun(s)])
  {
    if s != "" && IsWordChar(s[0]) { WordRunWord(s[1..]); }
  }

  lemma TokenText(s: string)
    requires TokenLength(s) > 0
    ensures var n := TokenLength(s);
            s[..n] == "<<" + (s[2..n - 2] + ">>") && IsKey(s[2..n - 2])
  {
    WordRunWord(s[2..]);
    var n := TokenLength(s);
    var key := s[2..n - 2];
    assert forall i | 0 <= i < |key| :: key[i] == s[2..][i];
  }

  /** What comes first in s: a token or one character. */
  function Head(s: string): (n: nat)
    requires s != ""
    ensures 0 < n <= |s|
  {
    if TokenLength(s) > 0 then TokenLength(s) else 1
  }

  function HeadPiece(s: string): Piece
    requires s != ""
  {
    if TokenLength(s) > 0 then Token(s[2..TokenLength(s) - 2]) else Plain(s[0])
  }

  lemma HeadPieceSpells(s: string)
    requires s != ""
    ensures s == PieceText(HeadPiece(s)) + s[Head(s)..]
    ensures HeadPiece(s).Token? ==> IsKey(HeadPiece(s).key)
    ensures HeadPiece(s).Plain? ==> TokenLength(s) == 0
  {
    if TokenLength(s) > 0 {
      TokenText(s);
      assert s == s[..Head(s)] + s[Head(s)..];
    } else {
      assert s == [s[0]] + s[1..];
    }
  }

  lemma TokeniseStep(s: string)
    requires s != ""
    ensures Tokenise(s) == [HeadPiece(s)] + Tokenise(s[Head(s)..])
  {
  }

  lemma LookupFills(values: Values, s: string)
    requires TokenLength(s) > 0
    ensures Lookup(values, s[..TokenLength(s)]) == Fill(values, Token(s[2..TokenLength(s) - 2]))
  {
    TokenText(s);
    assert s[..TokenLength(s)][2..TokenLength(s) - 2] == s[2..TokenLength(s) - 2];
  }

  lemma FillStep(values: Values, s: string)
    requires s != ""
    ensures Render(values, s) == Fill(values, HeadPiece(s)) + Render(values, s[Head(s)..])
  {
    if TokenLength(s) > 0 { LookupFills(values, s); }
  }

  lemma SpellStep(p: Piece, pieces: seq<Piece>)
    ensures Spell([p] + pieces) == PieceText(p) + Spell(pieces)
    ensures forall values :: FillAll(values, [p] + pieces) == Fill(values, p) + FillAll(values, pieces)
  {
    assert ([p] + pieces)[1..] == pieces;
  }

  lemma LeftmostStep(p: Piece, pieces: seq<Piece>)
    requires IsLeftmost(pieces) && (p.Token? ==> IsKey(p.key))
    requires p.Plain? ==> TokenLength(PieceText(p) + Spell(pieces)) == 0
    ensures IsLeftmost([p] + pieces)
  {
    SpellStep(p, pieces);
    assert ([p] + pieces)[1..] == pieces;
  }

  /** The pieces spell the template, leftmost match first. */
  lemma {:induction false} TokeniseSpells(s: string)
    ensures Spell(Tokenise(s)) == s && IsLeftmost(Tokenise(s))
    decreases |s|
  {
    if s != "" {
      var rest := s[Head(s)..];
      TokeniseSpells(rest);
      TokeniseStep(s);
      HeadPieceSpells(s);
      SpellStep(HeadPiece(s), Tokenise(rest));
      LeftmostStep(HeadPiece(s), Tokenise(rest));
    }
  }

  /** Rendering fills in the pieces, each by itself: the template alone decides what is a
      token, whatever the values hold. */
  lemma {:induction false} RenderFillsPieces(values: Values, s: string)
    ensures Render(values, s) == FillAll(values, Tokenise(s))
    decreases |s|
  {
    if s != "" {
      var rest := s[Head(s)..];
      RenderFillsPieces(values, rest);
      FillStep(values, s);
      TokeniseStep(s);
      SpellStep(HeadPiece(s), Tokenise(rest));
    }
  }

  lemma TokenLengthOf(key: string, rest: string)
    requires IsKey(key)
    ensures TokenLength(("<<" + (key + ">>")) + rest) == |key| + 4
  {
    var s := ("<<" + (key + ">>")) + rest;
    assert s[2..] == key + (">>" + rest);
    WordRunOf(key, ">>" + rest);
  }

  lemma TokeniseToken(key: string, rest: string)
    requires IsKey(key)
    ensures Tokenise(PieceText(Token(key)) + rest) == [Token(key)] + Tokenise(rest)
  {
    TokenLengthOf(key, rest);
    var s := ("<<" + (key + ">>")) + rest;
    assert s[2..|key| + 2] == key;
    assert s[|key| + 4..] == rest;
  }

  lemma TokenisePlain(c: char, rest: string)
    requires TokenLength([c] + rest) == 0
    ensures Tokenise([c] + rest) == [Plain(c)] + Tokenise(rest)
  {
    assert ([c] + rest)[1..] == rest;
  }

  lemma LeftmostParts(pieces: seq<Piece>)
    requires IsLeftmost(pieces) && pieces != []
    ensures IsLeftmost(pieces[1..])
    ensures pieces[0].Token? ==> IsKey(pieces[0].key)
    ensures pieces[0].Plain? ==> TokenLength([pieces[0].c] + Spell(pieces[1..])) == 0
    ensures Spell(pieces) == PieceText(pieces[0]) + Spell(pieces[1..])
  {
  }

  lemma TokeniseHead(p: Piece, rest: string)
    requires p.Token? ==> IsKey(p.key)
    requires p.Plain? ==> TokenLength([p.c] + rest) == 0
    ensures Tokenise(PieceText(p) + rest) == [p] + Tokenise(rest)
  {
    match p
    case Token(key) => TokeniseToken(key, rest);
    case Plain(c) => TokenisePlain(c, rest);
  }

  /** There is only one such tokenisation of a text. */
  lemma {:induction false} TokenisationUnique(pieces: seq<Piece>)
    requires IsLeftmost(pieces)
    ensures Tokenise(Spell(pieces)) == pieces
  {
    if pieces != [] {
      LeftmostParts(pieces);
      TokenisationUnique(pieces[1..]);
      TokeniseHead(pieces[0], Spell(pieces[1..]));
      assert pieces == [pieces[0]] + pieces[1..];
    }
  }

  // ---- Hardening ---------------------------------------------------------------------

  /** `s[:max_len]` for texts longer than max_len; a negative bound counts from the end. */
  function Truncate(s: string, maxLen: Option<int>): string {
    match maxLen
    case None => s
    case Some(m) =>
      if |s| <= m then s
      else if m >= 0 then s[..m]
      else if |s| + m >= 0 then s[..|s| + m]
      else ""
  }

  /** What is kept is a beginning of the text: all of it, as many characters as asked for,
      or all but as many as a negative bound says. */
  lemma TruncateKeeps(s: string, maxLen: Option<int>)
    ensures var t := Truncate(s, maxLen);
            && t == s[..|t|]
            && (maxLen.None? ==> t == s)
            && (maxLen.Some? && maxLen.value >= 0 ==> |t| == if |s| < maxLen.value then |s| else maxLen.value)
            && (maxLen.Some? && maxLen.value < 0 ==> |t| == if |s| < -maxLen.value then 0 else |s| + maxLen.value)
  {
  }

  function Neutralise(s: string): string {
    Replace(Replace(s, "<<", "\U{2039}\U{2039}"), ">>", "\U{203A}\U{203A}")
  }

  function Harden(value: Option<string>, maxLen: Option<int>): string {
    match value
    case None => ""
    case Some(s) => Neutralise(Truncate(s, maxLen))
  }

  ghost predicate NoPair(s: string, c: char) {
    forall i | 0 <= i < |s| - 1 :: !(s[i] == s[i + 1] == c)
  }

  lemma NoPairPrepend(a: char, s: string, c: char)
    requires NoPair(s, c) && !(a == c && s != "" && s[0] == c)
    ensures NoPair([a] + s, c)
  {
    var t := [a] + s;
    forall i | 0 <= i < |t| - 1 ensures !(t[i] == t[i + 1] == c) {
      if i > 0 { assert t[i] == s[i - 1] && t[i + 1] == s[i]; }
    }
  }

  /** t is as long as s, has no pair of c, no new pair of d, and begins as s does or with r
      written over c. */
  ghost predicate PairFree(s: string, t: string, c: char, r: char, d: char) {
    && |t| == |s|
    && NoPair(t, c)
    && (NoPair(s, d) ==> NoPair(t, d))
    && (s != "" ==> t[0] == s[0] || (t[0] == r && s[0] == c))
  }

  lemma NoPairTail(s: string, c: char)
    requires NoPair(s, c) && s != ""
    ensures NoPair(s[1..], c)
  {
    forall i | 0 <= i < |s[1..]| - 1 ensures !(s[1..][i] == s[1..][i + 1] == c) {
      assert s[1..][i] == s[i + 1] && s[1..][i + 1] == s[i + 1 + 1];
    }
  }

  lemma PairThenRest(rest: string, t: string, c: char, r: char, d: char)
    requires c != r && d != c && d != r && PairFree(rest, t, c, r, d)
    ensures PairFree([c, c] + rest, [r, r] + t, c, r, d)
  {
    assert [r, r] + t == [r] + ([r] + t);
    NoPairPrepend(r, t, c);
    NoPairPrepend(r, [r] + t, c);
    var s := [c, c] + rest;
    if NoPair(s, d) {
      NoPairTail(s, d);
      NoPairTail(s[1..], d);
      assert s[1..][1..] == rest;
      NoPairPrepend(r, t, d);
      NoPairPrepend(r, [r] + t, d);
    }
  }

  lemma CharThenRest(x: char, rest: string, t: string, c: char, r: char, d: char)
    requires c != r && d != c && d != r && PairFree(rest, t, c, r, d) && !(x == c && rest != "" && rest[0] == c)
    ensures PairFree([x] + rest, [x] + t, c, r, d)
  {
    NoPairPrepend(x, t, c);
    var s := [x] + rest;
    if NoPair(s, d) {
      NoPairTail(s, d);
      assert s[1..] == rest;
      assert rest != "" ==> s[1] == rest[0] && !(s[0] == s[0 + 1] == d);
      NoPairPrepend(x, t, d);
    }
  }

  /** Replacing pairs of c by pairs of r. */
  lemma {:induction false} PairsReplaced(s: string, c: char, r: char, d: char)
    requires c != r && d != c && d != r
    ensures PairFree(s, Replace(s, [c, c], [r, r]), c, r, d)
  {
    if s != "" {
      if [c, c] <= s {
        PairsReplaced(s[2..], c, r, d);
        PairThenRest(s[2..], Replace(s[2..], [c, c], [r, r]), c, r, d);
        assert s == [c, c] + s[2..];
      } else {
        PairsReplaced(s[1..], c, r, d);
        assert !(s[0] == c && s[1..] != "" && s[1..][0] == c);
        CharThenRest(s[0], s[1..], Replace(s[1..], [c, c], [r, r]), c, r, d);
        assert s == [s[0]] + s[1..];
      }
    }
  }

  /** Position i belongs to a pair of c. */
  predicate InPair(s: string, i: nat, c: char)
    requires i < |s|
  {
    s[i] == c && ((i > 0 && s[i - 1] == c) || (i + 1 < |s| && s[i + 1] == c))
  }

  /** t is s with r written over some of its paired c. */
  ghost predicate Overwrites(s: string, t: string, c: char, r: char) {
    |t| == |s| && forall i | 0 <= i < |s| :: t[i] == s[i] || (t[i] == r && InPair(s, i, c))
  }

  lemma OverwritesPrefix(head: string, done: string, s: string, t: string, c: char, r: char)
    requires Overwrites(s, t, c, r) && |done| == |head|
    requires forall i | 0 <= i < |head| :: done[i] == head[i] || (done[i] == r && InPair(head, i, c))
    ensures Overwrites(head + s, done + t, c, r)
  {
    var u, v, k := head + s, done + t, |head|;
    forall i | 0 <= i < |u| ensures v[i] == u[i] || (v[i] == r && InPair(u, i, c)) {
      if i < k {
        assert i > 0 ==> u[i - 1] == head[i - 1];
        assert i + 1 < k ==> u[i + 1] == head[i + 1];
      } else {
        assert u[i] == s[i - k] && v[i] == t[i - k];
        assert i > k ==> u[i - 1] == s[i - k - 1];
        assert i + 1 < |u| ==> u[i + 1] == s[i - k + 1];
      }
    }
  }

  lemma {:induction false} ReplaceOverwrites(s: string, c: char, r: char)
    ensures Overwrites(s, Replace(s, [c, c], [r, r]), c, r)
  {
    if s != "" {
      if [c, c] <= s {
        assert s[0] == [c, c][0] && s[1] == [c, c][1];
        ReplaceOverwrites(s[2..], c, r);
        OverwritesPrefix([c, c], [r, r], s[2..], Replace(s[2..], [c, c], [r, r]), c, r);
        assert s == [c, c] + s[2..];
      } else {
        ReplaceOverwrites(s[1..], c, r);
        OverwritesPrefix([s[0]], [s[0]], s[1..], Replace(s[1..], [c, c], [r, r]), c, r);
        assert s == [s[0]] + s[1..];
      }
    }
  }

  /** Nothing but paired markers is written over, and by their look-alikes. */
  lemma NeutraliseKeepsText(s: string)
    ensures var t := Neutralise(s);
            |t| == |s| && forall i | 0 <= i < |s| ::
              || t[i] == s[i]
              || (t[i] == '\U{2039}' && InPair(s, i, '<'))
              || (t[i] == '\U{203A}' && InPair(s, i, '>'))
  {
    var u := Replace(s, "<<", "\U{2039}\U{2039}");
    ReplaceOverwrites(s, '<', '\U{2039}');
    ReplaceOverwrites(u, '>', '\U{203A}');
    assert forall i | 0 <= i < |s| :: u[i] == '>' <==> s[i] == '>';
  }

  lemma PairInFront(s: string, c: char)
    requires [c, c] <= s
    ensures !NoPair(s, c)
  {
    assert s[0] == s[0 + 1] == c;
  }

  lemma {:induction false} NothingToReplace(s: string, c: char, rep: string)
    requires NoPair(s, c)
    ensures Replace(s, [c, c], rep) == s
  {
    if s != "" {
      if [c, c] <= s { PairInFront(s, c); }
      NoPairTail(s, c);
      NothingToReplace(s[1..], c, rep);
      assert s == [s[0]] + s[1..];
    }
  }

  lemma NeutraliseClears(s: string)
    ensures |Neutralise(s)| == |s| && NoPair(Neutralise(s), '<') && NoPair(Neutralise(s), '>')
  {
    PairsReplaced(s, '<', '\U{2039}', '>');
    var t := Replace(s, "<<", "\U{2039}\U{2039}");
    PairsReplaced(t, '>', '\U{203A}', '<');
  }

  /** Neither marker is left, and the length is that of the truncated text. */
  lemma HardenClears(value: Option<string>, maxLen: Option<int>)
    ensures NoPair(Harden(value, maxLen), '<') && NoPair(Harden(value, maxLen), '>')
    ensures value.Some? ==> |Harden(value, maxLen)| == |Truncate(value.value, maxLen)|
    ensures maxLen.Some? && maxLen.value >= 0 ==> |Harden(value, maxLen)| <= maxLen.value
  {
    if value.Some? { NeutraliseClears(Truncate(value.value, maxLen)); }
  }

  /** A text without markers is left as it is, so hardening twice is hardening once. Only
      a negative max_len that leaves something over cuts again. */
  lemma HardenTwiceExactlyWhen(s: string, maxLen: Option<int>)
    ensures Harden(Some(Harden(Some(s), maxLen)), maxLen) == Harden(Some(s), maxLen) <==>
            (maxLen.Some? && maxLen.value < 0 ==> |s| <= -maxLen.value)
  {
    var once := Harden(Some(s), maxLen);
    HardenClears(Some(s), maxLen);
    HardenClears(Some(once), maxLen);
    if maxLen.Some? && maxLen.value < 0 ==> |s| <= -maxLen.value {
      assert Truncate(once, maxLen) == once;
      NothingToReplace(once, '<', "\U{2039}\U{2039}");
      NothingToReplace(once, '>', "\U{203A}\U{203A}");
    }
  }

  // ---- Two passes --------------------------------------------------------------------

  /** No part of a token. */
  predicate IsBorder(c: char) {
    !IsWordChar(c) && c != '<' && c != '>'
  }

  /** Each token stands between borders or the ends of the text. */
  ghost predicate TokensBordered(s: string) {
    forall i | 0 <= i < |s| && TokenLength(s[i..]) > 0 ::
      && (i == 0 || IsBorder(s[i - 1]))
      && (i + TokenLength(s[i..]) == |s| || IsBorder(s[i + TokenLength(s[i..])]))
  }

  lemma {:induction false} WordRunStops(x: string, c: char, y: string)
    requires IsBorder(c)
    ensures WordRun(x + ([c] + y)) == WordRun(x)
  {
    var s := x + ([c] + y);
    if x != "" {
      assert s[1..] == x[1..] + ([c] + y);
      WordRunStops(x[1..], c, y);
    }
  }

  /** A token ends before the next border. */
  lemma TokenStops(x: string, c: char, y: string)
    requires IsBorder(c)
    ensures TokenLength(x + ([c] + y)) == TokenLength(x)
  {
    var s := x + ([c] + y);
    if |x| >= 2 {
      assert s[2..] == x[2..] + ([c] + y);
      WordRunStops(x[2..], c, y);
    }
  }

  /** The head of x, filled in where it is a token. */
  function HeadText(values: Values, s: string): string
    requires s != ""
  {
    if TokenLength(s) > 0 then Lookup(values, s[..Head(s)]) else s[..Head(s)]
  }

  lemma RenderStep(values: Values, s: string)
    requires s != ""
    ensures Render(values, s) == HeadText(values, s) + Render(values, s[Head(s)..])
  {
    assert s[..1] == [s[0]];
  }

  lemma HeadBeforeBorder(values: Values, x: string, c: char, y: string)
    requires IsBorder(c) && x != ""
    ensures var s := x + ([c] + y);
            && HeadText(values, s) == HeadText(values, x)
            && Head(s) == Head(x)
            && s[Head(s)..] == x[Head(x)..] + ([c] + y)
  {
    var s := x + ([c] + y);
    TokenStops(x, c, y);
    assert s[..Head(x)] == x[..Head(x)];
  }

  lemma RenderAtBorder(values: Values, c: char, y: string)
    requires IsBorder(c)
    ensures Render(values, "" + ([c] + y)) == "" + ([c] + Render(values, y))
  {
    TokenStops("", c, y);
    assert "" + ([c] + y) == [c] + y && ([c] + y)[1..] == y;
  }

  /** Rendering goes on from scratch after a border. */
  lemma {:induction false} RenderSplits(values: Values, x: string, c: char, y: string)
    requires IsBorder(c)
    ensures Render(values, x + ([c] + y)) == Render(values, x) + ([c] + Render(values, y))
    decreases |x|
  {
    if x == "" {
      RenderAtBorder(values, c, y);
      assert Render(values, x) == "";
    } else {
      var rest := x[Head(x)..];
      HeadBeforeBorder(values, x, c, y);
      RenderStep(values, x);
      RenderStep(values, x + ([c] + y));
      RenderSplits(values, rest, c, y);
      Regroup(HeadText(values, x), Render(values, rest), [c] + Render(values, y));
    }
  }

  lemma {:induction false} NothingToRender(values: Values, s: string)
    requires forall i | 0 <= i < |s| :: TokenLength(s[i..]) == 0
    ensures Render(values, s) == s
  {
    if s != "" {
      assert s[0..] == s;
      forall i | 0 <= i < |s[1..]| ensures TokenLength(s[1..][i..]) == 0 {
        assert s[1..][i..] == s[i + 1..];
      }
      NothingToRender(values, s[1..]);
      assert s == [s[0]] + s[1..];
    }
  }

  /** A text without a marker pair has no token. */
  lemma UnmarkedIsPlain(values: Values, s: string)
    requires NoPair(s, '<')
    ensures Render(values, s) == s
  {
    forall i | 0 <= i < |s| ensures TokenLength(s[i..]) == 0 {
      if i + 1 < |s| { assert !(s[i] == s[i + 1] == '<'); }
    }
    NothingToRender(values, s);
  }

  ghost predicate Hardened(values: Values) {
    forall k | k in values :: NoPair(values[k], '<')
  }

  /** Both sets of values at once; the first pass comes first. */
  function Joined(first: Values, second: Values): Values {
    second + first
  }

  lemma OneToken(values: Values, s: string)
    requires TokenLength(s) == |s| > 0
    ensures Render(values, s) == Lookup(values, s)
  {
    assert s[..|s|] == s && s[|s|..] == "";
    assert Lookup(values, s) + "" == Lookup(values, s);
  }

  /** A stretch without borders is one token or has none. */
  lemma SegmentTwoPasses(first: Values, second: Values, s: string)
    requires Hardened(first)
    requires TokenLength(s) == |s| > 0 || forall i | 0 <= i < |s| :: TokenLength(s[i..]) == 0
    ensures Render(second, Render(first, s)) == Render(Joined(first, second), s)
  {
    if TokenLength(s) == |s| > 0 {
      OneToken(first, s);
      OneToken(second, s);
      OneToken(Joined(first, second), s);
      var key := s[2..|s| - 2];
      if key in first { UnmarkedIsPlain(second, first[key]); }
    } else {
      NothingToRender(first, s);
      NothingToRender(second, s);
      NothingToRender(Joined(first, second), s);
    }
  }

  /** Up to the first border. */
  function SegmentLength(s: string): (n: nat)
    ensures n <= |s| && (forall i | 0 <= i < n :: !IsBorder(s[i])) && (n < |s| ==> IsBorder(s[n]))
  {
    if s == "" || IsBorder(s[0]) then 0 else 1 + SegmentLength(s[1..])
  }

  lemma BorderedSegment(x: string, tail: string)
    requires TokensBordered(x + tail) && (forall i | 0 <= i < |x| :: !IsBorder(x[i]))
    requires tail != "" ==> IsBorder(tail[0])
    ensures TokenLength(x) == |x| > 0 || forall i | 0 <= i < |x| :: TokenLength(x[i..]) == 0
  {
    var s := x + tail;
    assert forall k | 0 <= k < |x| :: s[k] == x[k] && !IsBorder(s[k]);
    forall i | 0 <= i < |x| && TokenLength(x[i..]) > 0 ensures i == 0 && TokenLength(x) == |x| {
      TailAt(x, tail, i);
      assert x[0..] == x;
    }
  }

  lemma TailAt(x: string, tail: string, i: nat)
    requires i < |x| && (tail != "" ==> IsBorder(tail[0]))
    ensures TokenLength((x + tail)[i..]) == TokenLength(x[i..])
  {
    assert (x + tail)[i..] == x[i..] + tail;
    if tail != "" {
      assert tail == [tail[0]] + tail[1..];
      TokenStops(x[i..], tail[0], tail[1..]);
    } else {
      assert x[i..] + tail == x[i..];
    }
  }

  lemma BorderedRest(x: string, c: char, y: string)
    requires TokensBordered(x + ([c] + y)) && IsBorder(c)
    ensures TokensBordered(y)
  {
    var s := x + ([c] + y);
    var k := |x| + 1;
    forall i | 0 <= i < |y| && TokenLength(y[i..]) > 0
      ensures i == 0 || IsBorder(y[i - 1])
      ensures i + TokenLength(y[i..]) == |y| || IsBorder(y[i + TokenLength(y[i..])])
    {
      assert s[k + i..] == y[i..];
      assert i > 0 ==> s[k + i - 1] == y[i - 1];
      var n := TokenLength(y[i..]);
      assert i + n < |y| ==> s[k + i + n] == y[i + n];
    }
  }

  /** A second pass over the first one's output comes to one pass with all the values. */
  ghost predicate TwoPassesAgree(first: Values, second: Values, s: string) {
    Render(second, Render(first, s)) == Render(Joined(first, second), s)
  }

  lemma AgreeAcrossBorder(first: Values, second: Values, x: string, c: char, y: string)
    requires IsBorder(c) && TwoPassesAgree(first, second, x) && TwoPassesAgree(first, second, y)
    ensures TwoPassesAgree(first, second, x + ([c] + y))
  {
    RenderSplits(first, x, c, y);
    RenderSplits(second, Render(first, x), c, Render(first, y));
    RenderSplits(Joined(first, second), x, c, y);
  }

  lemma SegmentAgrees(first: Values, second: Values, x: string, tail: string)
    requires Hardened(first) && TokensBordered(x + tail) && (tail != "" ==> IsBorder(tail[0]))
    requires forall i | 0 <= i < |x| :: !IsBorder(x[i])
    ensures TwoPassesAgree(first, second, x)
  {
    BorderedSegment(x, tail);
    SegmentTwoPasses(first, second, x);
  }

  lemma SplitAtBorder(s: string) returns (x: string, tail: string)
    ensures s == x + tail && (tail != "" ==> IsBorder(tail[0])) && forall i | 0 <= i < |x| :: !IsBorder(x[i])
  {
    x, tail := s[..SegmentLength(s)], s[SegmentLength(s)..];
  }

  /** Filling in hardened values first and the rest in a second pass gives what one pass
      with all of them gives, for every template whose tokens are bordered. */
  lemma {:induction false} TwoPassesAreOne(first: Values, second: Values, s: string)
    requires Hardened(first) && TokensBordered(s)
    ensures TwoPassesAgree(first, second, s)
    decreases |s|
  {
    var x, tail := SplitAtBorder(s);
    SegmentAgrees(first, second, x, tail);
    if tail == "" {
      assert s == x;
    } else {
      var y := tail[1..];
      assert s == x + ([tail[0]] + y);
      BorderedRest(x, tail[0], y);
      TwoPassesAreOne(first, second, y);
      AgreeAcrossBorder(first, second, x, tail[0], y);
    }
  }

  /** Harden gives such values. */
  lemma HardenedByHarden(raw: map<string, Option<string>>, maxLen: Option<int>)
    ensures Hardened(map k | k in raw :: Harden(raw[k], maxLen))
  {
    forall k | k in raw ensures NoPair(Harden(raw[k], maxLen), '<') {
      HardenClears(raw[k], maxLen);
    }
  }

  function TokenFor(key: string): string {
    "<<" + (key + ">>")
  }

  lemma RenderToken(values: Values, key: string, rest: string)
    requires IsKey(key)
    ensures Render(values, TokenFor(key) + rest)
         == (if key in values then values[key] else TokenFor(key)) + Render(values, rest)
  {
    var s := TokenFor(key) + rest;
    TokenLengthOf(key, rest);
    assert s[..|key| + 4] == TokenFor(key) && s[|key| + 4..] == rest;
    assert TokenFor(key)[2..|key| + 2] == key;
  }

  lemma RenderLoneToken(values: Values, key: string)
    requires IsKey(key)
    ensures Render(values, TokenFor(key)) == if key in values then values[key] else TokenFor(key)
  {
    RenderToken(values, key, "");
    assert TokenFor(key) + "" == TokenFor(key);
  }

  /** A token between markers: nothing in front of it matches. */
  lemma RenderFramedToken(values: Values, key: string)
    requires IsKey(key) && key in values
    ensures Render(values, "<" + (TokenFor(key) + ">>")) == "<" + (values[key] + ">>")
  {
    var t := TokenFor(key) + ">>";
    var s := "<" + t;
    assert s[2..][0] == '<' && WordRun(s[2..]) == 0 && s[1..] == t;
    UnmarkedIsPlain(values, ">>");
    RenderToken(values, key, ">>");
  }

  lemma {:induction false} KeyHasNoMarker(key: string, c: char)
    requires IsKey(key) && (c == '<' || c == '>')
    ensures NoPair(key, c) && NoPair("<" + key, c)
  {
    forall i | 0 <= i < |key| ensures key[i] != c {
      assert IsWordChar(key[i]);
    }
    NoPairPrepend('<', key, c);
  }

  lemma AlreadyHard(key: string)
    requires IsKey(key)
    ensures Harden(Some("<" + key), None) == "<" + key && NoPair("<" + key, '<')
  {
    KeyHasNoMarker(key, '<');
    KeyHasNoMarker(key, '>');
    NothingToReplace("<" + key, '<', "\U{2039}\U{2039}");
    NothingToReplace("<" + key, '>', "\U{203A}\U{203A}");
  }

  lemma Completes(key: string)
    ensures "<" + (("<" + key) + ">>") == TokenFor(key)
  {
  }

  /** Without the borders a hardened value can complete a token of the second pass,
      whatever the keys and whatever the value that then goes in. */
  lemma UnborderedTokenIsRescanned(a: string, b: string, v: string, first: Values, second: Values)
    requires IsKey(a) && IsKey(b)
    requires first == map[a := Harden(Some("<" + b), None)] && second == map[b := v]
    ensures Hardened(first)
    ensures var template := "<" + (TokenFor(a) + ">>");
            Render(second, Render(first, template)) == v && Render(Joined(first, second), template) == TokenFor(b)
  {
    AlreadyHard(b);
    Completes(b);
    RenderFramedToken(first, a);
    RenderFramedToken(Joined(first, second), a);
    RenderLoneToken(second, b);
  }

  /** Borders are sufficient and not necessary: a token with a letter in front of it and
      nothing behind, where the two passes agree for all values all the same. */
  lemma UnborderedCanAgree(first: Values, second: Values, key: string)
    requires Hardened(first) && IsKey(key)
    ensures !TokensBordered("x" + TokenFor(key)) && TwoPassesAgree(first, second, "x" + TokenFor(key))
  {
    var s := "x" + TokenFor(key);
    LetterThenToken(first, key);
    LetterThenToken(second, key);
    LetterThenToken(Joined(first, second), key);
    assert s[1..] == TokenFor(key) == TokenFor(key) + "";
    TokenLengthOf(key, "");
    assert TokenLength(s[1..]) > 0 && !IsBorder(s[0]);
    if key in first {
      NoPairPrepend('x', first[key], '<');
      UnmarkedIsPlain(second, "x" + first[key]);
    }
  }

  lemma LetterThenToken(values: Values, key: string)
    requires IsKey(key)
    ensures Render(values, "x" + TokenFor(key)) == "x" + if key in values then values[key] else TokenFor(key)
  {
    assert ("x" + TokenFor(key))[1..] == TokenFor(key);
    RenderLoneToken(values, key);
  }
}

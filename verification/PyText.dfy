/** Python string operations the text helpers are made of. */
module PyText {

  /** `str.isspace` for one character, which is also what `\s` matches. */
  predicate IsSpace(c: char) {
    || '\t' <= c <= '\r' || '\U{1C}' <= c <= ' ' || c == '\U{85}' || c == '\U{A0}' || c == '\U{1680}'
    || '\U{2000}' <= c <= '\U{200A}' || c == '\U{2028}' || c == '\U{2029}' || c == '\U{202F}'
    || c == '\U{205F}' || c == '\U{3000}'
  }

  ghost predicate AllSpace(s: string) {
    forall c | c in s :: IsSpace(c)
  }

  /** str.lstrip() */
  function LStrip(s: string): string {
    if s != "" && IsSpace(s[0]) then LStrip(s[1..]) else s
  }

  /** str.rstrip() */
  function RStrip(s: string): string {
    if s != "" && IsSpace(s[|s| - 1]) then RStrip(s[..|s| - 1]) else s
  }

  /** str.strip() */
  function Strip(s: string): string {
    LStrip(RStrip(s))
  }

  lemma {:induction false} RStripSplits(s: string)
    ensures RStrip(s) <= s && AllSpace(s[|RStrip(s)|..])
    ensures RStrip(s) != "" ==> !IsSpace(RStrip(s)[|RStrip(s)| - 1])
  {
    if s != "" && IsSpace(s[|s| - 1]) {
      RStripSplits(s[..|s| - 1]);
      assert s[|RStrip(s)|..] == s[..|s| - 1][|RStrip(s)|..] + [s[|s| - 1]];
    }
  }

  lemma {:induction false} LStripSplits(s: string)
    ensures |LStrip(s)| <= |s| && LStrip(s) == s[|s| - |LStrip(s)|..] && AllSpace(s[..|s| - |LStrip(s)|])
    ensures LStrip(s) != "" ==> !IsSpace(LStrip(s)[0])
  {
    if s != "" && IsSpace(s[0]) {
      LStripSplits(s[1..]);
      assert s[..|s| - |LStrip(s)|] == [s[0]] + s[1..][..|s| - 1 - |LStrip(s)|];
    }
  }

  /** Something is left of a strip exactly when not all of the text is whitespace. */
  lemma StripEmptiesExactly(s: string)
    ensures Strip(s) != "" <==> exists c :: c in s && !IsSpace(c)
  {
    RStripSplits(s);
    LStripSplits(RStrip(s));
    var r, t := RStrip(s), Strip(s);
    if t != "" {
      assert t[0] in r;
      assert t[0] in s;
    } else {
      assert r == r[..|r| - |t|];
      assert s == r + s[|r|..];
    }
  }

  /** Only a trailing run of whitespace can be taken off: this is the one way to do it. */
  lemma {:induction false} RStripUnique(a: string, pad: string)
    requires AllSpace(pad) && (a != "" ==> !IsSpace(a[|a| - 1]))
    ensures RStrip(a + pad) == a
  {
    if pad == "" {
      assert a + pad == a;
    } else {
      var s := a + pad;
      assert s[..|s| - 1] == a + pad[..|pad| - 1];
      RStripUnique(a, pad[..|pad| - 1]);
    }
  }

  lemma {:induction false} LStripUnique(pad: string, a: string)
    requires AllSpace(pad) && (a != "" ==> !IsSpace(a[0]))
    ensures LStrip(pad + a) == a
  {
    if pad == "" {
      assert pad + a == a;
    } else {
      assert (pad + a)[1..] == pad[1..] + a;
      LStripUnique(pad[1..], a);
    }
  }

  /** Padding on the right does not change a right strip. */
  lemma RStripPad(s: string, pad: string)
    requires AllSpace(pad)
    ensures RStrip(s + pad) == RStrip(s)
  {
    RStripSplits(s);
    var r := RStrip(s);
    assert s + pad == r + (s[|r|..] + pad);
    RStripUnique(r, s[|r|..] + pad);
  }

  lemma StripIdempotent(s: string)
    ensures Strip(Strip(s)) == Strip(s)
    ensures RStrip(RStrip(s)) == RStrip(s)
  {
    RStripSplits(s);
    RStripUnique(RStrip(s), "");
    assert RStrip(s) + "" == RStrip(s);
    var t := Strip(s);
    LStripSplits(RStrip(s));
    RStripUnique(t, "");
    assert t + "" == t;
    LStripUnique("", t);
    assert "" + t == t;
  }

  /** str.replace(pat, rep): leftmost matches first, none overlapping. */
  function Replace(s: string, pat: string, rep: string): string
    requires pat != ""
  {
    if s == "" then ""
    else if pat <= s then rep + Replace(s[|pat|..], pat, rep)
    else [s[0]] + Replace(s[1..], pat, rep)
  }

  predicate IsWordChar(c: char) {
    'A' <= c <= 'Z' || 'a' <= c <= 'z' || '0' <= c <= '9' || c == '_'
  }

  /** Length of the run of word characters s starts with. */
  function WordRun(s: string): (n: nat)
    ensures n <= |s|
  {
    if s != "" && IsWordChar(s[0]) then 1 + WordRun(s[1..]) else 0
  }

  lemma {:induction false} WordRunOf(word: string, rest: string)
    requires (forall i | 0 <= i < |word| :: IsWordChar(word[i])) && (rest != "" ==> !IsWordChar(rest[0]))
    ensures WordRun(word + rest) == |word|
  {
    if word == "" {
      assert word + rest == rest;
    } else {
      assert (word + rest)[1..] == word[1..] + rest;
      WordRunOf(word[1..], rest);
    }
  }

  lemma Regroup(a: string, b: string, c: string)
    ensures a + (b + c) == (a + b) + c
  {
  }
}

/** Printing property maps as Cypher text: `escape_cypher_string`,
    `is_safe_cypher_identifier` and `format_props`, against a reader for the map literals
    of openCypher 9. Floats are not modelled. */
module CypherText {
  import opened Wrappers
  import opened PyText

  // ---- String literals ---------------------------------------------------------------

  /** The four replaces, in the order the code applies them. */
  function Escape(s: string): string {
    Replace(Replace(Replace(Replace(s, "\\", "\\\\"), "'", "\\'"), "\n", "\\n"), "\r", "\\r")
  }

  function EscapeChar(c: char): string {
    match c
    case '\\' => "\\\\"
    case '\'' => "\\'"
    case '\n' => "\\n"
    case '\r' => "\\r"
    case _ => [c]
  }

  /** One pass, each character on its own. */
  function EscapeEach(s: string): string {
    if s == "" then "" else EscapeChar(s[0]) + EscapeEach(s[1..])
  }

  lemma {:induction false} ReplaceCharDistributes(a: string, b: string, c: char, rep: string)
    ensures Replace(a + b, [c], rep) == Replace(a, [c], rep) + Replace(b, [c], rep)
  {
    if a == "" {
      assert a + b == b;
    } else {
      assert (a + b)[1..] == a[1..] + b;
      ReplaceCharDistributes(a[1..], b, c, rep);
      assert [c] <= a <==> a[0] == c;
      assert [c] <= a + b <==> (a + b)[0] == c;
    }
  }

  lemma ReplaceOneChar(x: char, c: char, rep: string)
    ensures Replace([x], [c], rep) == if x == c then rep else [x]
  {
    assert [c] <= [x] <==> x == c;
    assert [x][1..] == "" && rep + "" == rep;
  }

  lemma EscapeDistributes(a: string, b: string)
    ensures Escape(a + b) == Escape(a) + Escape(b)
  {
    ReplaceCharDistributes(a, b, '\\', "\\\\");
    var a1, b1 := Replace(a, "\\", "\\\\"), Replace(b, "\\", "\\\\");
    ReplaceCharDistributes(a1, b1, '\'', "\\'");
    var a2, b2 := Replace(a1, "'", "\\'"), Replace(b1, "'", "\\'");
    ReplaceCharDistributes(a2, b2, '\n', "\\n");
    ReplaceCharDistributes(Replace(a2, "\n", "\\n"), Replace(b2, "\n", "\\n"), '\r', "\\r");
  }

  lemma ReplaceTwoChars(x: char, y: char, c: char, rep: string)
    requires x != c && y != c
    ensures Replace([x, y], [c], rep) == [x, y]
  {
    ReplaceCharDistributes([x], [y], c, rep);
    ReplaceOneChar(x, c, rep);
    ReplaceOneChar(y, c, rep);
    assert [x, y] == [x] + [y];
  }

  lemma EscapeOneChar(x: char)
    ensures Escape([x]) == EscapeChar(x)
  {
    ReplaceOneChar(x, '\\', "\\\\");
    ReplaceOneChar(x, '\'', "\\'");
    ReplaceOneChar(x, '\n', "\\n");
    ReplaceOneChar(x, '\r', "\\r");
    ReplaceTwoChars('\\', '\\', '\'', "\\'");
    ReplaceTwoChars('\\', '\\', '\n', "\\n");
    ReplaceTwoChars('\\', '\\', '\r', "\\r");
    ReplaceTwoChars('\\', '\'', '\n', "\\n");
    ReplaceTwoChars('\\', '\'', '\r', "\\r");
    ReplaceTwoChars('\\', 'n', '\r', "\\r");
  }

  /** The ordered replaces amount to one pass over the characters, for every string. */
  lemma {:induction false} EscapeIsOnePass(s: string)
    ensures Escape(s) == EscapeEach(s)
  {
    if s != "" {
      assert s == [s[0]] + s[1..];
      EscapeDistributes([s[0]], s[1..]);
      EscapeOneChar(s[0]);
      EscapeIsOnePass(s[1..]);
    }
  }

  /** EscapedChar: the character a backslash and `c` stand for. */
  function Unescape(c: char): Option<char> {
    if c == '\\' || c == '\'' || c == '"' then Some(c)
    else if c == 'b' || c == 'B' then Some('\U{8}')
    else if c == 'f' || c == 'F' then Some('\U{C}')
    else if c == 'n' || c == 'N' then Some('\n')
    else if c == 'r' || c == 'R' then Some('\r')
    else if c == 't' || c == 'T' then Some('\t')
    else None
  }

  /** The rest of a StringLiteral after its opening single quote, and what follows it. */
  function ReadString(s: string): (r: Option<(string, string)>)
    ensures r.Some? ==> |r.value.1| < |s|
  {
    if s == "" then None
    else if s[0] == '\'' then Some(("", s[1..]))
    else if s[0] == '\\' then
      if |s| < 2 || Unescape(s[1]).None? then None
      else
        var more := ReadString(s[2..]);
        if more.None? then None else Some(([Unescape(s[1]).value] + more.value.0, more.value.1))
    else
      var more := ReadString(s[1..]);
      if more.None? then None else Some(([s[0]] + more.value.0, more.value.1))
  }

  lemma ReadPlainChar(c: char, tail: string, s: string, rest: string)
    requires c != '\'' && c != '\\' && ReadString(tail) == Some((s, rest))
    ensures ReadString([c] + tail) == Some(([c] + s, rest))
  {
    assert ([c] + tail)[1..] == tail;
  }

  lemma ReadEscapedChar(c: char, tail: string, s: string, rest: string)
    requires Unescape(c).Some? && ReadString(tail) == Some((s, rest))
    ensures ReadString(['\\', c] + tail) == Some(([Unescape(c).value] + s, rest))
  {
    assert (['\\', c] + tail)[2..] == tail;
  }

  lemma ReadOneChar(c: char, tail: string, s: string, rest: string)
    requires ReadString(tail) == Some((s, rest))
    ensures ReadString(EscapeChar(c) + tail) == Some(([c] + s, rest))
  {
    if EscapeChar(c) == [c] {
      ReadPlainChar(c, tail, s, rest);
    } else {
      assert EscapeChar(c) == ['\\', EscapeChar(c)[1]];
      ReadEscapedChar(EscapeChar(c)[1], tail, s, rest);
    }
  }

  lemma ReadOneMore(c: char, escaped: string, s: string, rest: string)
    requires ReadString(escaped + ("'" + rest)) == Some((s, rest))
    ensures ReadString((EscapeChar(c) + escaped) + ("'" + rest)) == Some(([c] + s, rest))
  {
    ReadOneChar(c, escaped + ("'" + rest), s, rest);
    Regroup(EscapeChar(c), escaped, "'" + rest);
  }

  lemma ReadNoMore(rest: string)
    ensures ReadString("" + ("'" + rest)) == Some(("", rest))
  {
    assert "" + ("'" + rest) == "'" + rest && ("'" + rest)[1..] == rest;
  }

  lemma {:induction false} ReadEscaped(s: string, rest: string)
    ensures ReadString(EscapeEach(s) + ("'" + rest)) == Some((s, rest))
  {
    if s == "" {
      ReadNoMore(rest);
    } else {
      ReadEscaped(s[1..], rest);
      ReadOneMore(s[0], EscapeEach(s[1..]), s[1..], rest);
      assert s == [s[0]] + s[1..];
    }
  }

  /** Whatever the string, its escaped form in quotes reads back as it. */
  lemma LiteralRoundTrip(s: string, rest: string)
    ensures ReadString(Escape(s) + ("'" + rest)) == Some((s, rest))
  {
    EscapeIsOnePass(s);
    ReadEscaped(s, rest);
  }

  // ---- Keys --------------------------------------------------------------------------

  predicate IsIdentifier(k: string) {
    k != "" && IsWordChar(k[0]) && !('0' <= k[0] <= '9') && forall i | 0 <= i < |k| :: IsWordChar(k[i])
  }

  /** `^[A-Za-z_][A-Za-z0-9_]*$` at lengths 1 to 64. Python's `$` also matches in front of
      one final newline. */
  predicate IsSafeKey(k: string) {
    1 <= |k| <= 64 && (IsIdentifier(k) || (k[|k| - 1] == '\n' && IsIdentifier(k[..|k| - 1])))
  }

  function Chomp(k: string): string {
    if k != "" && k[|k| - 1] == '\n' then k[..|k| - 1] else k
  }

  /** A safe key is an identifier up to one final newline, and is one exactly when that
      newline is not there. */
  lemma SafeKeyMeans(k: string)
    requires IsSafeKey(k)
    ensures IsIdentifier(Chomp(k)) && (k == Chomp(k) || k == Chomp(k) + "\n")
    ensures IsIdentifier(k) <==> '\n' !in k
  {
    if k[|k| - 1] == '\n' {
      assert k == k[..|k| - 1] + "\n";
    }
    if IsIdentifier(k) {
      assert forall c | c in k :: IsWordChar(c);
    }
  }

  /** A letter or an underscore. */
  predicate IsNameStart(c: char) {
    'A' <= c <= 'Z' || 'a' <= c <= 'z' || c == '_'
  }

  /** An identifier, character by character. */
  predicate IsName(k: string) {
    k != "" && IsNameStart(k[0]) && forall i | 0 < i < |k| :: IsNameStart(k[i]) || '0' <= k[i] <= '9'
  }

  /** The safe keys are the names of up to 64 characters, and those of up to 63 with a
      newline behind them. */
  lemma SafeKeyExactlyWhen(k: string)
    ensures IsSafeKey(k) <==> (IsName(k) && |k| <= 64) || (|k| <= 64 && exists name :: IsName(name) && k == name + "\n")
  {
    NameIsIdentifier(k);
    if k != "" {
      var name := k[..|k| - 1];
      NameIsIdentifier(name);
      if k[|k| - 1] == '\n' { assert k == name + "\n"; }
      forall other: string | k == other + "\n" ensures other == name && k[|k| - 1] == '\n' {
        assert k[..|other|] == other;
      }
    }
  }

  lemma NameIsIdentifier(k: string)
    ensures IsName(k) <==> IsIdentifier(k)
  {
    if IsName(k) {
      forall i | 0 <= i < |k| ensures IsWordChar(k[i]) { assert i > 0 ==> IsNameStart(k[i]) || '0' <= k[i] <= '9'; }
    }
    if IsIdentifier(k) {
      forall i | 0 < i < |k| ensures IsNameStart(k[i]) || '0' <= k[i] <= '9' { assert IsWordChar(k[i]); }
    }
  }

  // ---- Integers ----------------------------------------------------------------------

  predicate IsDigit(c: char) {
    '0' <= c <= '9'
  }

  function DigitChar(d: nat): char
    requires d < 10
  {
    "0123456789"[d]
  }

  function DigitValue(c: char): int {
    c as int - '0' as int
  }

  function Digits(n: nat): string {
    if n < 10 then [DigitChar(n)] else Digits(n / 10) + [DigitChar(n % 10)]
  }

  /** str(int) */
  function PrintInt(i: int): string {
    if i < 0 then "-" + Digits(-i) else Digits(i)
  }

  function ValueOf(digits: string): int {
    if digits == "" then 0 else 10 * ValueOf(digits[..|digits| - 1]) + DigitValue(digits[|digits| - 1])
  }

  function DigitRun(s: string): (n: nat)
    ensures n <= |s|
  {
    if s != "" && IsDigit(s[0]) then 1 + DigitRun(s[1..]) else 0
  }

  lemma {:induction false} DigitsMean(n: nat)
    ensures ValueOf(Digits(n)) == n && Digits(n) != "" && forall c | c in Digits(n) :: IsDigit(c)
  {
    if n >= 10 {
      DigitsMean(n / 10);
      var d := Digits(n / 10);
      assert (d + [DigitChar(n % 10)])[..|d|] == d;
    }
  }

  lemma {:induction false} DigitsLead(n: nat)
    ensures Digits(n) != "" && Digits(n)[0] in "0123456789" && (Digits(n)[0] == '0' <==> n == 0)
    ensures n < 10 ==> |Digits(n)| == 1
  {
    if n >= 10 { DigitsLead(n / 10); }
  }

  /** Python's decimal form: a sign for negative numbers and for those only, no leading zero
      but in "0" itself, and the value of its digits. */
  lemma IntText(i: int)
    ensures var t := PrintInt(i); var digits := if i < 0 then t[1..] else t;
            && t != "" && (t[0] == '-' <==> i < 0)
            && digits != "" && (forall c | c in digits :: c in "0123456789") && (digits[0] == '0' <==> i == 0)
            && (i == 0 ==> t == "0")
            && ValueOf(digits) == if i < 0 then -i else i
  {
    var n := if i < 0 then -i else i;
    DigitsLead(n);
    DigitsMean(n);
    forall c | c in Digits(n) ensures c in "0123456789" { assert IsDigit(c); DigitIsListed(c); }
    if i < 0 { assert ("-" + Digits(n))[1..] == Digits(n); }
  }

  lemma DigitIsListed(c: char)
    requires IsDigit(c)
    ensures c in "0123456789"
  {
    assert c == '0' || c == '1' || c == '2' || c == '3' || c == '4' || c == '5' || c == '6' || c == '7' || c == '8' || c == '9';
    var s := "0123456789";
    assert s[0] == '0' && s[1] == '1' && s[2] == '2' && s[3] == '3' && s[4] == '4';
    assert s[5] == '5' && s[6] == '6' && s[7] == '7' && s[8] == '8' && s[9] == '9';
  }

  /** What follows a value: nothing that could continue it. */
  predicate Ends(rest: string) {
    rest == "" || !IsWordChar(rest[0])
  }

  lemma {:induction false} RunOf(digits: string, rest: string)
    requires (forall c | c in digits :: IsDigit(c)) && Ends(rest)
    ensures DigitRun(digits + rest) == |digits|
  {
    if digits == "" {
      assert digits + rest == rest;
    } else {
      assert (digits + rest)[1..] == digits[1..] + rest;
      RunOf(digits[1..], rest);
    }
  }

  // ---- Values ------------------------------------------------------------------------

  /** A list element as Python sees it; `ItemJson` carries `json.dumps` of anything else,
      None included. */
  datatype Item = ItemStr(s: string) | ItemInt(i: int) | ItemBool(b: bool) | ItemJson(dump: string)

  datatype PyValue =
    | PyNone | PyBool(b: bool) | PyInt(i: int) | PyStr(s: string) | PyList(items: seq<Item>) | PyJson(dump: string)

  datatype Scalar = CStr(s: string) | CInt(i: int) | CBool(b: bool)

  datatype CypherValue = One(scalar: Scalar) | Many(scalars: seq<Scalar>)

  function PrintScalar(x: Scalar): string {
    match x
    case CStr(s) => "'" + Escape(s) + "'"
    case CInt(i) => PrintInt(i)
    case CBool(b) => if b then "true" else "false"
  }

  /** What a list element is in Cypher. */
  function OfItem(it: Item): Scalar {
    match it
    case ItemStr(s) => CStr(s)
    case ItemInt(i) => CInt(i)
    case ItemBool(b) => CBool(b)
    case ItemJson(dump) => CStr(dump)
  }

  function Join(parts: seq<string>, sep: string): string {
    if parts == [] then ""
    else if |parts| == 1 then parts[0]
    else parts[0] + sep + Join(parts[1..], sep)
  }

  function PrintItems(items: seq<Item>): seq<string> {
    if items == [] then [] else [PrintScalar(OfItem(items[0]))] + PrintItems(items[1..])
  }

  function PrintValue(v: PyValue): string {
    match v
    case PyNone => "''"
    case PyBool(b) => if b then "true" else "false"
    case PyInt(i) => PrintInt(i)
    case PyStr(s) => "'" + Escape(s) + "'"
    case PyList(items) => "[" + Join(PrintItems(items), ", ") + "]"
    case PyJson(dump) => "'" + Escape(dump) + "'"
  }

  function OfItems(items: seq<Item>): seq<Scalar> {
    if items == [] then [] else [OfItem(items[0])] + OfItems(items[1..])
  }

  /** What a property value should be once it is in Cypher: None becomes ''. */
  function OfValue(v: PyValue): CypherValue {
    match v
    case PyNone => One(CStr(""))
    case PyBool(b) => One(CBool(b))
    case PyInt(i) => One(CInt(i))
    case PyStr(s) => One(CStr(s))
    case PyList(items) => Many(OfItems(items))
    case PyJson(dump) => One(CStr(dump))
  }

  // ---- Reading -----------------------------------------------------------------------

  function SkipSpace(s: string): (r: string)
    ensures |r| <= |s|
  {
    if s != "" && IsSpace(s[0]) then SkipSpace(s[1..]) else s
  }

  function ReadScalar(s: string): (r: Option<(Scalar, string)>)
    ensures r.Some? ==> |r.value.1| < |s|
  {
    if s == "" then None
    else if s[0] == '\'' then
      var body := ReadString(s[1..]);
      if body.None? then None else Some((CStr(body.value.0), body.value.1))
    else if s[0] == '-' then
      var n := DigitRun(s[1..]);
      if n == 0 then None else Some((CInt(-ValueOf(s[1..][..n])), s[1..][n..]))
    else if IsDigit(s[0]) then
      var n := DigitRun(s);
      Some((CInt(ValueOf(s[..n])), s[n..]))
    else
      var n := WordRun(s);
      if s[..n] == "true" then Some((CBool(true), s[n..]))
      else if s[..n] == "false" then Some((CBool(false), s[n..]))
      else None
  }

  ghost predicate Shrinks<T(!new)>(read: string -> Option<(T, string)>) {
    forall s :: read(s).Some? ==> |read(s).value.1| < |s|
  }

  /** One or more items between commas, up to and including the closing character. */
  ghost function ReadItems<T(!new)>(read: string -> Option<(T, string)>, close: char, s: string)
    : (r: Option<(seq<T>, string)>)
    requires Shrinks(read)
    ensures r.Some? ==> |r.value.1| < |s|
    decreases |s|
  {
    var first := read(SkipSpace(s));
    if first.None? then None
    else
      var after := SkipSpace(first.value.1);
      if after == "" then None
      else if after[0] == close then Some(([first.value.0], after[1..]))
      else if after[0] != ',' then None
      else
        var more := ReadItems(read, close, after[1..]);
        if more.None? then None else Some(([first.value.0] + more.value.0, more.value.1))
  }

  ghost function ReadValue(s: string): (r: Option<(CypherValue, string)>)
    ensures r.Some? ==> |r.value.1| < |s|
  {
    if s != "" && s[0] == '[' then
      var inner := SkipSpace(s[1..]);
      if inner != "" && inner[0] == ']' then Some((Many([]), inner[1..]))
      else
        var elements := ReadItems(ReadScalar, ']', inner);
        if elements.None? then None else Some((Many(elements.value.0), elements.value.1))
    else
      var x := ReadScalar(s);
      if x.None? then None else Some((One(x.value.0), x.value.1))
  }

  /** A key, a colon and a value. */
  ghost function ReadEntry(s: string): (r: Option<((string, CypherValue), string)>)
    ensures r.Some? ==> |r.value.1| < |s|
  {
    var n := WordRun(s);
    var after := SkipSpace(s[n..]);
    if !IsIdentifier(s[..n]) || after == "" || after[0] != ':' then None
    else
      var v := ReadValue(SkipSpace(after[1..]));
      if v.None? then None else Some(((s[..n], v.value.0), v.value.1))
  }

  ghost function ReadMap(s: string): Option<(seq<(string, CypherValue)>, string)> {
    if s == "" || s[0] != '{' then None
    else
      var inner := SkipSpace(s[1..]);
      if inner != "" && inner[0] == '}' then Some(([], inner[1..])) else ReadItems(ReadEntry, '}', inner)
  }

  // ---- Property maps -----------------------------------------------------------------

  /** A Python dict, in insertion order. */
  type Props = seq<(string, PyValue)>

  function Parts(props: Props): seq<string> {
    if props == [] then []
    else
      var (k, v) := props[|props| - 1];
      Parts(props[..|props| - 1]) + if IsSafeKey(k) then [k + ": " + PrintValue(v)] else []
  }

  function PrintProps(props: Props): string {
    if props == [] then "{}" else "{ " + Join(Parts(props), ", ") + " }"
  }

  /** What should be read back: unsafe keys dropped, values as Cypher has them. */
  function ReadBack(props: Props): seq<(string, CypherValue)> {
    if props == [] then []
    else
      var (k, v) := props[|props| - 1];
      ReadBack(props[..|props| - 1]) + if IsSafeKey(k) then [(Chomp(k), OfValue(v))] else []
  }

  method FormatProps(props: Props) returns (text: string)
    ensures text == PrintProps(props)
  {
    if props == [] { return "{}"; }
    var parts: seq<string> := [];
    for i := 0 to |props|
      invariant parts == Parts(props[..i])
    {
      var (k, v) := props[i];
      assert props[..i + 1][..i] == props[..i];
      if !IsSafeKey(k) { continue; }
      parts := parts + [k + ": " + PrintValue(v)];
    }
    assert props[..|props|] == props;
    return "{ " + Join(parts, ", ") + " }";
  }

  lemma StringRoundTrip(s: string, rest: string)
    ensures ReadScalar(PrintScalar(CStr(s)) + rest) == Some((CStr(s), rest))
  {
    var body := Escape(s) + ("'" + rest);
    LiteralRoundTrip(s, rest);
    assert PrintScalar(CStr(s)) + rest == "'" + body;
    assert ("'" + body)[1..] == body;
  }

  lemma NatRoundTrip(n: nat, rest: string)
    requires Ends(rest)
    ensures var s := Digits(n) + rest;
            DigitRun(s) == |Digits(n)| > 0 && ValueOf(s[..DigitRun(s)]) == n && s[DigitRun(s)..] == rest && IsDigit(s[0])
  {
    DigitsMean(n);
    RunOf(Digits(n), rest);
    var s := Digits(n) + rest;
    assert s[..|Digits(n)|] == Digits(n) && s[|Digits(n)|..] == rest;
    assert s[0] == Digits(n)[0] && Digits(n)[0] in Digits(n);
  }

  /** A run of digits, with a minus in front and without. */
  lemma ReadDigits(s: string)
    requires s != "" && IsDigit(s[0])
    ensures ReadScalar(s) == Some((CInt(ValueOf(s[..DigitRun(s)])), s[DigitRun(s)..]))
    ensures ReadScalar("-" + s) == Some((CInt(-ValueOf(s[..DigitRun(s)])), s[DigitRun(s)..]))
  {
    assert ("-" + s)[1..] == s;
  }

  lemma IntRoundTrip(i: int, rest: string)
    requires Ends(rest)
    ensures ReadScalar(PrintScalar(CInt(i)) + rest) == Some((CInt(i), rest))
    ensures PrintInt(i) != "" && (IsDigit(PrintInt(i)[0]) || PrintInt(i)[0] == '-')
  {
    var n := if i < 0 then -i else i;
    NatRoundTrip(n, rest);
    ReadDigits(Digits(n) + rest);
    assert (Digits(n) + rest)[0] == Digits(n)[0];
    assert ("-" + Digits(n)) + rest == "-" + (Digits(n) + rest);
  }

  lemma BoolRoundTrip(b: bool, rest: string)
    requires Ends(rest)
    ensures ReadScalar(PrintScalar(CBool(b)) + rest) == Some((CBool(b), rest))
  {
    var w := PrintScalar(CBool(b));
    WordRunOf(w, rest);
    assert (w + rest)[..|w|] == w && (w + rest)[|w|..] == rest && (w + rest)[0] == w[0];
  }

  /** No printed value begins with whitespace or a bracket's end. */
  predicate Starts(s: string) {
    s != "" && !IsSpace(s[0]) && s[0] != ']' && s[0] != '}'
  }

  lemma ScalarRoundTrip(x: Scalar, rest: string)
    requires Ends(rest)
    ensures ReadScalar(PrintScalar(x) + rest) == Some((x, rest))
    ensures Starts(PrintScalar(x)) && PrintScalar(x)[0] != '['
  {
    match x
    case CStr(s) => StringRoundTrip(s, rest);
    case CInt(i) => IntRoundTrip(i, rest);
    case CBool(b) => BoolRoundTrip(b, rest);
  }

  lemma SkipOneSpace(s: string)
    requires s == "" || !IsSpace(s[0])
    ensures SkipSpace(" " + s) == s && SkipSpace(s) == s
  {
    assert (" " + s)[1..] == s;
  }

  /** Whatever ends it, the text reads as x. */
  ghost predicate ReadsAs<T(!new)>(read: string -> Option<(T, string)>, text: string, x: T) {
    Starts(text) && forall rest | Ends(rest) :: read(text + rest) == Some((x, rest))
  }

  /** `closing` is the closing character, perhaps after a space. */
  ghost predicate Closes(closing: string, close: char) {
    (closing == [close] || closing == " " + [close]) && close in {']', '}'}
  }

  lemma LastItem<T(!new)>(
      read: string -> Option<(T, string)>, close: char, text: string, x: T, closing: string, rest: string)
    requires Shrinks(read) && ReadsAs(read, text, x) && Closes(closing, close)
    ensures ReadItems(read, close, text + (closing + rest)) == Some(([x], rest))
  {
    var tail := closing + rest;
    assert read(text + tail) == Some((x, tail));
    SkipOneSpace(text + tail);
    SkipOneSpace([close] + rest);
    assert tail == [close] + rest || tail == " " + ([close] + rest);
    assert ([close] + rest)[1..] == rest;
  }

  lemma ItemAndMore<T(!new)>(read: string -> Option<(T, string)>, close: char, text: string, x: T, more: string)
    requires Shrinks(read) && ReadsAs(read, text, x) && Starts(more) && close in {']', '}'}
    requires ReadItems(read, close, more).Some?
    ensures var r := ReadItems(read, close, more).value;
            ReadItems(read, close, text + (", " + more)) == Some(([x] + r.0, r.1))
  {
    var tail := ", " + more;
    assert read(text + tail) == Some((x, tail));
    SkipOneSpace(text + tail);
    SkipOneSpace(tail);
    assert tail[1..] == " " + more;
    SkipOneSpace(more);
  }

  lemma JoinCons(text: string, texts: seq<string>, sep: string, tail: string)
    requires texts != []
    ensures Join([text] + texts, sep) + tail == text + (sep + (Join(texts, sep) + tail))
  {
    assert ([text] + texts)[1..] == texts;
  }

  lemma StartsLonger(text: string, more: string)
    requires Starts(text)
    ensures Starts(text + more)
  {
  }

  lemma OneMoreItem<T(!new)>(read: string -> Option<(T, string)>, close: char, text: string, x: T,
                             texts: seq<string>, xs: seq<T>, tail: string, rest: string)
    requires Shrinks(read) && ReadsAs(read, text, x) && close in {']', '}'} && texts != [] && Starts(Join(texts, ", "))
    requires ReadItems(read, close, Join(texts, ", ") + tail) == Some((xs, rest))
    ensures ReadItems(read, close, Join([text] + texts, ", ") + tail) == Some(([x] + xs, rest))
  {
    StartsLonger(Join(texts, ", "), tail);
    ItemAndMore(read, close, text, x, Join(texts, ", ") + tail);
    JoinCons(text, texts, ", ", tail);
  }

  lemma JoinStarts(text: string, texts: seq<string>)
    requires Starts(text)
    ensures Starts(Join([text] + texts, ", "))
  {
    if texts != [] {
      JoinCons(text, texts, ", ", "");
      assert Join([text] + texts, ", ") + "" == Join([text] + texts, ", ");
    }
  }

  /** Items joined by commas and closed read back as they are. */
  lemma {:induction false} ItemsRoundTrip<T(!new)>(
      read: string -> Option<(T, string)>, close: char, texts: seq<string>, xs: seq<T>, closing: string, rest: string)
    requires Shrinks(read) && Closes(closing, close) && texts != [] && |texts| == |xs|
    requires forall i | 0 <= i < |xs| :: ReadsAs(read, texts[i], xs[i])
    ensures ReadItems(read, close, Join(texts, ", ") + (closing + rest)) == Some((xs, rest))
    ensures Starts(Join(texts, ", "))
  {
    assert texts == [texts[0]] + texts[1..] && xs == [xs[0]] + xs[1..];
    JoinStarts(texts[0], texts[1..]);
    if |texts| == 1 {
      LastItem(read, close, texts[0], xs[0], closing, rest);
      assert texts == [texts[0]] && xs == [xs[0]];
    } else {
      ItemsRoundTrip(read, close, texts[1..], xs[1..], closing, rest);
      OneMoreItem(read, close, texts[0], xs[0], texts[1..], xs[1..], closing + rest, rest);
    }
  }

  lemma {:induction false} ItemsRead(items: seq<Item>)
    ensures |PrintItems(items)| == |OfItems(items)| == |items|
    ensures forall i | 0 <= i < |items| :: ReadsAs(ReadScalar, PrintItems(items)[i], OfItems(items)[i])
  {
    if items != [] {
      ItemsRead(items[1..]);
      var x := OfItem(items[0]);
      forall rest | Ends(rest) ensures ReadScalar(PrintScalar(x) + rest) == Some((x, rest)) {
        ScalarRoundTrip(x, rest);
      }
      ScalarRoundTrip(x, "");
      forall i | 0 < i < |items| ensures ReadsAs(ReadScalar, PrintItems(items)[i], OfItems(items)[i]) {
        assert ReadsAs(ReadScalar, PrintItems(items[1..])[i - 1], OfItems(items[1..])[i - 1]);
      }
    }
  }

  lemma ListRoundTrip(items: seq<Item>, rest: string)
    ensures ReadValue(PrintValue(PyList(items)) + rest) == Some((Many(OfItems(items)), rest))
  {
    var inner := Join(PrintItems(items), ", ") + ("]" + rest);
    assert PrintValue(PyList(items)) + rest == "[" + inner;
    assert ("[" + inner)[1..] == inner;
    if items == [] {
      assert inner == "]" + rest && inner[1..] == rest;
    } else {
      ItemsRead(items);
      ItemsRoundTrip(ReadScalar, ']', PrintItems(items), OfItems(items), "]", rest);
    }
    SkipOneSpace(inner);
  }

  lemma ValueRoundTrip(v: PyValue, rest: string)
    requires Ends(rest)
    ensures ReadValue(PrintValue(v) + rest) == Some((OfValue(v), rest))
    ensures Starts(PrintValue(v))
  {
    if v.PyList? {
      ListRoundTrip(v.items, rest);
    } else {
      var x := OfValue(v).scalar;
      ScalarRoundTrip(x, rest);
      EscapeIsOnePass("");
      assert PrintValue(v) == PrintScalar(x);
      assert (PrintScalar(x) + rest)[0] == PrintScalar(x)[0];
    }
  }

  /** The key may have a newline before the colon. */
  lemma AfterKey(gap: string, value: string)
    requires gap in {"", "\n"} && Starts(value)
    ensures Ends(gap + (": " + value)) && SkipSpace(gap + (": " + value)) == ": " + value
    ensures SkipSpace((": " + value)[1..]) == value
  {
    var tail := ": " + value;
    assert SkipSpace(tail) == tail;
    if gap == "\n" { assert (gap + tail)[1..] == tail; } else { assert gap + tail == tail; }
    assert tail[1..] == " " + value;
    SkipOneSpace(value);
  }

  lemma KeyRead(id: string, tail: string, value: string)
    requires IsIdentifier(id) && Ends(tail) && SkipSpace(tail) == ": " + value
    requires SkipSpace((": " + value)[1..]) == value && ReadValue(value).Some?
    ensures ReadEntry(id + tail) == Some(((id, ReadValue(value).value.0), ReadValue(value).value.1))
  {
    WordRunOf(id, tail);
    assert (id + tail)[..|id|] == id && (id + tail)[|id|..] == tail;
  }

  lemma KeySplits(k: string) returns (gap: string)
    requires IsSafeKey(k)
    ensures k == Chomp(k) + gap && gap in {"", "\n"} && IsIdentifier(Chomp(k))
  {
    SafeKeyMeans(k);
    gap := if k == Chomp(k) then "" else "\n";
    assert Chomp(k) + "" == Chomp(k);
  }

  lemma EntryText(k: string, id: string, gap: string, text: string, rest: string)
    requires k == id + gap
    ensures (k + ": " + text) + rest == id + (gap + (": " + (text + rest)))
  {
  }

  lemma KeyStarts(k: string, text: string)
    requires IsSafeKey(k)
    ensures Starts(k + ": " + text)
  {
    var gap := KeySplits(k);
    assert k[0] == Chomp(k)[0] && IsWordChar(k[0]);
    assert (k + ": " + text)[0] == k[0];
  }

  lemma EntryRoundTrip(k: string, text: string, value: CypherValue, rest: string)
    requires IsSafeKey(k) && Starts(text) && ReadValue(text + rest) == Some((value, rest))
    ensures ReadEntry((k + ": " + text) + rest) == Some(((Chomp(k), value), rest))
  {
    var gap := KeySplits(k);
    assert Starts(text + rest);
    AfterKey(gap, text + rest);
    KeyRead(Chomp(k), gap + (": " + (text + rest)), text + rest);
    EntryText(k, Chomp(k), gap, text, rest);
  }

  /** The safe entries of a dict, in order. */
  function SafeOnly(props: Props): Props {
    if props == [] then []
    else SafeOnly(props[..|props| - 1]) + if IsSafeKey(props[|props| - 1].0) then [props[|props| - 1]] else []
  }

  lemma {:induction false} SafeOnlyKeeps(props: Props)
    ensures Parts(props) == Parts(SafeOnly(props)) && ReadBack(props) == ReadBack(SafeOnly(props))
    ensures forall i | 0 <= i < |SafeOnly(props)| :: IsSafeKey(SafeOnly(props)[i].0)
  {
    if props != [] {
      var rest := props[..|props| - 1];
      SafeOnlyKeeps(rest);
      var safe := SafeOnly(rest);
      if IsSafeKey(props[|props| - 1].0) {
        assert (safe + [props[|props| - 1]])[..|safe|] == safe;
      } else {
        assert SafeOnly(props) == safe;
      }
    }
  }

  lemma PartReads(k: string, v: PyValue)
    requires IsSafeKey(k)
    ensures ReadsAs(ReadEntry, k + ": " + PrintValue(v), (Chomp(k), OfValue(v)))
  {
    var text := PrintValue(v);
    forall rest | Ends(rest)
      ensures ReadEntry((k + ": " + text) + rest) == Some(((Chomp(k), OfValue(v)), rest))
    {
      ValueRoundTrip(v, rest);
      EntryRoundTrip(k, text, OfValue(v), rest);
    }
    KeyStarts(k, text);
  }

  lemma {:induction false} PartsRead(safe: Props)
    requires forall i | 0 <= i < |safe| :: IsSafeKey(safe[i].0)
    ensures |Parts(safe)| == |ReadBack(safe)| == |safe|
    ensures forall i | 0 <= i < |safe| :: ReadsAs(ReadEntry, Parts(safe)[i], ReadBack(safe)[i])
  {
    if safe != [] {
      PartsRead(safe[..|safe| - 1]);
      PartReads(safe[|safe| - 1].0, safe[|safe| - 1].1);
    }
  }

  lemma EmptyMap(rest: string)
    ensures ReadMap("{}" + rest) == Some(([], rest))
  {
    var s := "{}" + rest;
    assert s[1..] == "}" + rest && ("}" + rest)[1..] == rest;
    SkipOneSpace("}" + rest);
  }

  lemma BlankMap(rest: string)
    ensures ReadMap("{  }" + rest) == Some(([], rest))
  {
    var s, t := "{  }" + rest, " }" + rest;
    assert s[1..] == " " + t && (" " + t)[1..] == t && t == " " + ("}" + rest);
    SkipOneSpace("}" + rest);
    assert ("}" + rest)[1..] == rest;
  }

  lemma Braced(body: string, rest: string)
    requires Starts(body)
    ensures ReadMap("{ " + body + " }" + rest) == ReadItems(ReadEntry, '}', body + (" }" + rest))
  {
    var inner := body + (" }" + rest);
    var s := "{ " + body + " }" + rest;
    assert inner[0] == body[0];
    assert s[1..] == " " + inner;
    SkipOneSpace(inner);
  }

  lemma PrintedMap(texts: seq<string>, entries: seq<(string, CypherValue)>, rest: string)
    requires |texts| == |entries| && forall i | 0 <= i < |entries| :: ReadsAs(ReadEntry, texts[i], entries[i])
    ensures ReadMap("{ " + Join(texts, ", ") + " }" + rest) == Some((entries, rest))
  {
    if texts == [] {
      BlankMap(rest);
      assert "{ " + "" + " }" + rest == "{  }" + rest;
    } else {
      ItemsRoundTrip(ReadEntry, '}', texts, entries, " }", rest);
      Braced(Join(texts, ", "), rest);
    }
  }

  /** The round trip, for every dict and whatever follows the map: a reader gets back each
      safe key, in order and without its final newline if it had one, with its value. */
  lemma PropsRoundTrip(props: Props, rest: string)
    ensures ReadMap(PrintProps(props) + rest) == Some((ReadBack(props), rest))
  {
    if props == [] {
      EmptyMap(rest);
    } else {
      SafeOnlyKeeps(props);
      PartsRead(SafeOnly(props));
      PrintedMap(Parts(props), ReadBack(props), rest);
    }
  }

  /** Hence the keys come back exactly as they were if and only if no safe key ends in a
      newline. */
  lemma KeysComeBackExactlyWhen(props: Props)
    ensures |ReadBack(props)| == |SafeOnly(props)|
    ensures (forall i | 0 <= i < |SafeOnly(props)| ::
               ReadBack(props)[i] == (SafeOnly(props)[i].0, OfValue(SafeOnly(props)[i].1))) <==>
            (forall i | 0 <= i < |SafeOnly(props)| :: '\n' !in SafeOnly(props)[i].0)
  {
    SafeOnlyKeeps(props);
    ReadBackPointwise(props);
    forall i | 0 <= i < |SafeOnly(props)|
      ensures Chomp(SafeOnly(props)[i].0) == SafeOnly(props)[i].0 <==> '\n' !in SafeOnly(props)[i].0
    {
      SafeKeyMeans(SafeOnly(props)[i].0);
    }
  }

  lemma {:induction false} ReadBackPointwise(props: Props)
    ensures |ReadBack(props)| == |SafeOnly(props)|
    ensures forall i | 0 <= i < |SafeOnly(props)| ::
              ReadBack(props)[i] == (Chomp(SafeOnly(props)[i].0), OfValue(SafeOnly(props)[i].1))
  {
    if props != [] { ReadBackPointwise(props[..|props| - 1]); }
  }

  lemma {:induction false} ReadBackFinds(props: Props, i: nat)
    requires i < |props| && IsSafeKey(props[i].0)
    ensures (Chomp(props[i].0), OfValue(props[i].1)) in ReadBack(props)
  {
    if i < |props| - 1 { ReadBackFinds(props[..|props| - 1], i); }
  }

  lemma {:induction false} ReadBackFrom(props: Props, x: (string, CypherValue)) returns (i: nat)
    requires x in ReadBack(props)
    ensures i < |props| && IsSafeKey(props[i].0) && x == (Chomp(props[i].0), OfValue(props[i].1))
  {
    i := |props| - 1;
    if x in ReadBack(props[..i]) { i := ReadBackFrom(props[..i], x); }
  }

  /** What a reader finds, entry by entry: each entry of the dict whose key is a name of up
      to 64 characters is there with its value; whatever is there is one of those, or one
      whose key was a name with a newline behind it; so no longer key and no other text. */
  lemma EntriesComeBack(props: Props, rest: string)
    ensures ReadMap(PrintProps(props) + rest).Some?
    ensures var found := ReadMap(PrintProps(props) + rest).value.0;
            && (forall i | 0 <= i < |props| && IsName(props[i].0) && |props[i].0| <= 64 ::
                  (props[i].0, OfValue(props[i].1)) in found)
            && (forall x | x in found ::
                  && IsName(x.0)
                  && exists i :: 0 <= i < |props| && props[i].0 in {x.0, x.0 + "\n"} && |props[i].0| <= 64
                                 && x.1 == OfValue(props[i].1))
  {
    PropsRoundTrip(props, rest);
    forall i | 0 <= i < |props| && IsName(props[i].0) && |props[i].0| <= 64
      ensures (props[i].0, OfValue(props[i].1)) in ReadBack(props)
    {
      SafeKeyExactlyWhen(props[i].0);
      NameIsIdentifier(props[i].0);
      SafeKeyMeans(props[i].0);
      ReadBackFinds(props, i);
      ChompsToItself(props[i].0);
    }
    forall x | x in ReadBack(props)
      ensures IsName(x.0)
      ensures exists i :: 0 <= i < |props| && props[i].0 in {x.0, x.0 + "\n"} && |props[i].0| <= 64 && x.1 == OfValue(props[i].1)
    {
      var i := ReadBackFrom(props, x);
      SafeKeyMeans(props[i].0);
      NameIsIdentifier(x.0);
    }
  }

  lemma ChompsToItself(k: string)
    requires IsIdentifier(k)
    ensures Chomp(k) == k
  {
    assert IsWordChar(k[|k| - 1]);
  }
}

/** The parts of Go's `strings`, `strconv` and `fmt` packages that the modelled code relies
    on. A Go string is modelled as a sequence of code points (no UTF-8 layer). */
module GoStrings {

  /** Characters named by their code points. */
  const Tab: char := 9 as char
  const Newline: char := 10 as char
  const CarriageReturn: char := 13 as char
  const Bell: char := 7 as char
  const Backspace: char := 8 as char
  const VerticalTab: char := 11 as char
  const FormFeed: char := 12 as char
  const Delete: char := 127 as char
  const DoubleQuote: char := 34 as char
  const Backslash: char := 92 as char

  /** unicode.IsSpace: the code points with the Unicode White_Space property. */
  predicate IsSpace(c: char) {
    || 0x09 <= c as int <= 0x0D || c as int == 0x20 || c as int == 0x85 || c as int == 0xA0 || c as int == 0x1680
    || 0x2000 <= c as int <= 0x200A
    || c as int == 0x2028 || c as int == 0x2029 || c as int == 0x202F || c as int == 0x205F || c as int == 0x3000
  }

  predicate HasPrefix(s: string, prefix: string) {
    prefix <= s
  }

  predicate HasSuffix(s: string, suffix: string) {
    |suffix| <= |s| && s[|s| - |suffix|..] == suffix
  }

  function TrimPrefix(s: string, prefix: string): (r: string)
    ensures HasPrefix(s, prefix) ==> s == prefix + r
    ensures !HasPrefix(s, prefix) ==> r == s
  {
    if HasPrefix(s, prefix) then s[|prefix|..] else s
  }

  function TrimSuffix(s: string, suffix: string): (r: string)
    ensures HasSuffix(s, suffix) ==> s == r + suffix
    ensures !HasSuffix(s, suffix) ==> r == s
  {
    if HasSuffix(s, suffix) then s[..|s| - |suffix|] else s
  }

  /** strings.Contains */
  predicate Contains(s: string, sub: string)
    decreases |s|
  {
    HasPrefix(s, sub) || (|s| > 0 && Contains(s[1..], sub))
  }

  /** The end of the run of characters satisfying f that starts at i. */
  function SkipFrom(s: string, i: nat, f: char -> bool): (j: nat)
    requires i <= |s|
    ensures i <= j <= |s|
    ensures forall k :: i <= k < j ==> f(s[k])
    ensures j < |s| ==> !f(s[j])
    decreases |s| - i
  {
    if i < |s| && f(s[i]) then SkipFrom(s, i + 1, f) else i
  }

  /** The start of the run of characters satisfying f that ends at j, going no lower than
      lo. */
  function SkipBackFrom(s: string, lo: nat, j: nat, f: char -> bool): (i: nat)
    requires lo <= j <= |s|
    ensures lo <= i <= j
    ensures forall k :: i <= k < j ==> f(s[k])
    ensures lo < i ==> !f(s[i - 1])
    decreases j
  {
    if lo < j && f(s[j - 1]) then SkipBackFrom(s, lo, j - 1, f) else j
  }

  /** The end of the run of characters not satisfying f that starts at i. */
  function WordEnd(s: string, i: nat, f: char -> bool): (j: nat)
    requires i <= |s|
    ensures i <= j <= |s|
    ensures forall k :: i <= k < j ==> !f(s[k])
    ensures j < |s| ==> f(s[j])
    decreases |s| - i
  {
    if i < |s| && !f(s[i]) then WordEnd(s, i + 1, f) else i
  }

  /** strings.TrimFunc: the slice of s between its leading and its trailing characters that
      satisfy f. */
  function TrimFunc(s: string, f: char -> bool): (r: string)
    ensures r != [] ==> !f(r[0]) && !f(r[|r| - 1])
    ensures SkipFrom(s, 0, f) + |r| <= |s|
    ensures r == s[SkipFrom(s, 0, f)..SkipFrom(s, 0, f) + |r|]
    ensures forall k :: SkipFrom(s, 0, f) + |r| <= k < |s| ==> f(s[k])
    ensures r == [] <==> forall k :: 0 <= k < |s| ==> f(s[k])
  {
    var a := SkipFrom(s, 0, f);
    var b := SkipBackFrom(s, a, |s|, f);
    assert a < |s| ==> !f(s[a]);
    s[a..b]
  }

  /** strings.TrimSpace */
  function TrimSpace(s: string): string {
    TrimFunc(s, IsSpace)
  }

  /** Neither starts nor ends with white space. */
  predicate Unpadded(s: string) {
    s == [] || (!IsSpace(s[0]) && !IsSpace(s[|s| - 1]))
  }

  /** TrimSpace leaves a string that neither starts nor ends with white space as it is, and
      it leaves only such strings. */
  lemma TrimSpaceUnpadded(s: string)
    ensures TrimSpace(s) == s <==> Unpadded(s)
  {
    if Unpadded(s) && s != [] {
      assert SkipFrom(s, 0, IsSpace) == 0;
      assert SkipBackFrom(s, 0, |s|, IsSpace) == |s|;
      assert s[0..|s|] == s;
    }
  }

  /** strings.Trim(s, string([c])): drops every leading and trailing c. */
  function TrimChar(s: string, c: char): (r: string)
    ensures |r| <= |s|
    ensures r != [] ==> r[0] != c && r[|r| - 1] != c
    decreases |s|
  {
    if |s| > 0 && s[0] == c then TrimChar(s[1..], c)
    else if |s| > 0 && s[|s| - 1] == c then TrimChar(s[..|s| - 1], c)
    else s
  }

  /** strings.Split(s, string([sep])): never empty; the pieces between the separators. */
  function Split(s: string, sep: char): (r: seq<string>)
    ensures |r| >= 1
    decreases |s|
  {
    if |s| == 0 then [""]
    else if s[0] == sep then [""] + Split(s[1..], sep)
    else var rest := Split(s[1..], sep); [[s[0]] + rest[0]] + rest[1..]
  }

  /** strings.Join */
  function Join(parts: seq<string>, sep: string): string
    decreases |parts|
  {
    if |parts| == 0 then ""
    else if |parts| == 1 then parts[0]
    else parts[0] + sep + Join(parts[1..], sep)
  }

  /** A field of strings.FieldsFunc: a non-empty run of characters that do not satisfy f. */
  predicate IsField(w: string, f: char -> bool) {
    w != "" && forall k :: 0 <= k < |w| ==> !f(w[k])
  }

  /** strings.FieldsFunc on s[i..]: the maximal runs of characters that do not satisfy f, in
      order. */
  function FieldsFrom(s: string, i: nat, f: char -> bool): (r: seq<string>)
    requires i <= |s|
    decreases |s| - i
  {
    var a := SkipFrom(s, i, f);
    if a == |s| then []
    else
      var b := WordEnd(s, a, f);
      [s[a..b]] + FieldsFrom(s, b, f)
  }

  /** strings.Fields: the maximal runs of non-space characters, in order. */
  function Fields(s: string): seq<string> {
    FieldsFrom(s, 0, IsSpace)
  }

  function DigitChar(d: nat): char
    requires d < 10
  {
    "0123456789"[d]
  }

  function NatToString(n: nat): (r: string)
    ensures |r| >= 1
    ensures forall i :: 0 <= i < |r| ==> '0' <= r[i] <= '9'
    decreases n
  {
    if n < 10 then [DigitChar(n)] else NatToString(n / 10) + [DigitChar(n % 10)]
  }

  /** strconv.Itoa, and fmt's %d. */
  function Itoa(n: int): string {
    if n < 0 then "-" + NatToString(-n) else NatToString(n)
  }

  /** fmt's %*d: left-pads with spaces up to `width` characters. */
  function PadLeft(s: string, width: nat): (r: string)
    ensures |r| == if |s| < width then width else |s|
    ensures HasSuffix(r, s)
  {
    if |s| < width then seq(width - |s|, _ => ' ') + s else s
  }

  /** fmt's %-*s: right-pads with spaces up to `width` characters. */
  function PadRight(s: string, width: nat): (r: string)
    ensures |r| == if |s| < width then width else |s|
    ensures HasPrefix(r, s)
  {
    if |s| < width then s + seq(width - |s|, _ => ' ') else s
  }

  function HexDigit(d: nat): char
    requires d < 16
  {
    "0123456789abcdef"[d]
  }

  /** One character as strconv.Quote writes it; control characters of ASCII are escaped. */
  function QuoteChar(c: char): string {
    if c == DoubleQuote then [Backslash, DoubleQuote]
    else if c == Backslash then [Backslash, Backslash]
    else if c == '\n' then "\\n"
    else if c == '\t' then "\\t"
    else if c == '\r' then "\\r"
    else if c == Bell then "\\a"
    else if c == Backspace then "\\b"
    else if c == FormFeed then "\\f"
    else if c == VerticalTab then "\\v"
    else if c < ' ' || c == Delete then "\\x" + [HexDigit(c as int / 16), HexDigit(c as int % 16)]
    else [c]
  }

  function QuoteBody(s: string): string
    decreases |s|
  {
    if s == [] then "" else QuoteChar(s[0]) + QuoteBody(s[1..])
  }

  /** fmt's %q of a string. */
  function Quote(s: string): (r: string)
    ensures |r| >= 2 && r[0] == DoubleQuote && r[|r| - 1] == DoubleQuote
  {
    [DoubleQuote] + QuoteBody(s) + [DoubleQuote]
  }

  /** english.Plural(n, word, "") of go-humanize, for words with a regular "-s" plural. */
  function Plural(n: int, word: string): string {
    Itoa(n) + " " + (if n == 1 then word else word + "s")
  }

  /** strings.ToLower, for ASCII letters. */
  function ToLower(s: string): (r: string)
    ensures |r| == |s|
  {
    seq(|s|, i requires 0 <= i < |s| => if 'A' <= s[i] <= 'Z' then (s[i] as int + 32) as char else s[i])
  }

  /** Go's string comparison a <= b: lexicographic on the characters. */
  predicate StringLe(a: string, b: string)
    decreases |a|
  {
    a == [] || (b != [] && (a[0] < b[0] || (a[0] == b[0] && StringLe(a[1..], b[1..]))))
  }

  lemma {:induction false} StringLeTotal(a: string, b: string)
    ensures StringLe(a, b) || StringLe(b, a)
    decreases |a|
  {
    if a != [] && b != [] && a[0] == b[0] {
      StringLeTotal(a[1..], b[1..]);
    }
  }

  lemma {:induction false} StringLeTransitive(a: string, b: string, c: string)
    requires StringLe(a, b) && StringLe(b, c)
    ensures StringLe(a, c)
    decreases |a|
  {
    if a != [] && a[0] == b[0] && b[0] == c[0] {
      StringLeTransitive(a[1..], b[1..], c[1..]);
    }
  }

  lemma {:induction false} StringLeAntisymmetric(a: string, b: string)
    requires StringLe(a, b) && StringLe(b, a)
    ensures a == b
    decreases |a|
  {
    if a != [] {
      StringLeAntisymmetric(a[1..], b[1..]);
      assert a == [a[0]] + a[1..] && b == [b[0]] + b[1..];
    }
  }

  // ---------------------------------------------------------------------------------------
  // Split and Join

  lemma {:induction false} SplitNoSeparator(s: string, sep: char)
    requires sep !in s
    ensures Split(s, sep) == [s]
    decreases |s|
  {
    if |s| > 0 {
      SplitNoSeparator(s[1..], sep);
      assert [s[0]] + s[1..] == s;
    }
  }

  lemma {:induction false} SplitPiece(a: string, sep: char, rest: string)
    requires sep !in a
    ensures Split(a + [sep] + rest, sep) == [a] + Split(rest, sep)
    decreases |a|
  {
    if |a| == 0 {
      assert a + [sep] + rest == [sep] + rest;
      assert ([sep] + rest)[1..] == rest;
    } else {
      assert (a + [sep] + rest)[1..] == a[1..] + [sep] + rest;
      SplitPiece(a[1..], sep, rest);
      assert [a[0]] + a[1..] == a;
    }
  }

  /** Joining pieces that hold no separator and splitting again gives the pieces back. */
  lemma {:induction false} SplitOfJoin(parts: seq<string>, sep: char)
    requires |parts| >= 1
    requires forall k :: 0 <= k < |parts| ==> sep !in parts[k]
    ensures Split(Join(parts, [sep]), sep) == parts
    decreases |parts|
  {
    if |parts| == 1 {
      SplitNoSeparator(parts[0], sep);
    } else {
      SplitOfJoin(parts[1..], sep);
      assert parts[0] + [sep] + Join(parts[1..], [sep]) == Join(parts, [sep]);
      SplitPiece(parts[0], sep, Join(parts[1..], [sep]));
      assert [parts[0]] + parts[1..] == parts;
    }
  }

  /** Splitting and joining with the same separator gives the string back. */
  lemma {:induction false} JoinOfSplit(s: string, sep: char)
    ensures Join(Split(s, sep), [sep]) == s
    decreases |s|
  {
    if |s| > 0 {
      JoinOfSplit(s[1..], sep);
      var rest := Split(s[1..], sep);
      if s[0] != sep {
        var r := Split(s, sep);
        assert r == [[s[0]] + rest[0]] + rest[1..];
        if |rest| == 1 {
          assert Join(r, [sep]) == [s[0]] + rest[0];
        } else {
          assert r[1..] == rest[1..];
          assert Join(rest, [sep]) == rest[0] + [sep] + Join(rest[1..], [sep]);
          assert Join(r, [sep]) == [s[0]] + rest[0] + [sep] + Join(rest[1..], [sep]);
        }
      }
    }
  }

  /** No piece of a split contains the separator. */
  lemma {:induction false} SplitPiecesLackSeparator(s: string, sep: char)
    ensures forall k :: 0 <= k < |Split(s, sep)| ==> sep !in Split(s, sep)[k]
    decreases |s|
  {
    if |s| > 0 {
      SplitPiecesLackSeparator(s[1..], sep);
    }
  }

  lemma {:induction false} JoinSingle(parts: seq<string>, sep: string)
    requires |parts| == 1
    ensures Join(parts, sep) == parts[0]
  {
  }

  /** Joining one more piece appends the separator and the piece. */
  lemma {:induction false} JoinSnoc(parts: seq<string>, last: string, sep: string)
    requires |parts| >= 1
    ensures Join(parts + [last], sep) == Join(parts, sep) + sep + last
    decreases |parts|
  {
    if |parts| == 1 {
      assert parts + [last] == [parts[0], last];
      assert [parts[0], last][1..] == [last];
    } else {
      assert (parts + [last])[1..] == parts[1..] + [last];
      JoinSnoc(parts[1..], last, sep);
    }
  }

  /** A string holding the separator splits into at least two pieces. */
  lemma {:induction false} SplitHasSeparator(s: string, sep: char)
    requires sep in s
    ensures |Split(s, sep)| >= 2
    decreases |s|
  {
    if s[0] != sep {
      assert sep in s[1..] by {
        var i :| 0 <= i < |s| && s[i] == sep;
        assert s[1..][i - 1] == sep;
      }
      SplitHasSeparator(s[1..], sep);
    }
  }

  // ---------------------------------------------------------------------------------------
  // Quoting is injective: the escapes can be read back one character at a time.

  function HexValue(c: char): nat {
    if '0' <= c <= '9' then c as int - '0' as int
    else if 'a' <= c <= 'f' then c as int - 'a' as int + 10
    else 0
  }

  lemma HexRoundTrip(d: nat)
    requires d < 16
    ensures HexValue(HexDigit(d)) == d
  {
    var digits := "0123456789abcdef";
    assert digits[d] == HexDigit(d);
    if d < 10 {
      assert digits[d] as int == '0' as int + d by {
        assert digits[..10] == "0123456789";
      }
    } else {
      assert digits[d] as int == 'a' as int + d - 10 by {
        assert digits[10..] == "abcdef";
        assert digits[d] == digits[10..][d - 10];
      }
    }
  }

  /** The first character of a quoted body and the length of its escape. */
  function DecodeFirst(t: string): (char, nat)
    requires |t| > 0
  {
    if t[0] != Backslash || |t| < 2 then (t[0], 1)
    else if t[1] == DoubleQuote then (DoubleQuote, 2)
    else if t[1] == Backslash then (Backslash, 2)
    else if t[1] == 'n' then ('\n', 2)
    else if t[1] == 't' then ('\t', 2)
    else if t[1] == 'r' then ('\r', 2)
    else if t[1] == 'a' then (Bell, 2)
    else if t[1] == 'b' then (Backspace, 2)
    else if t[1] == 'f' then (FormFeed, 2)
    else if t[1] == 'v' then (VerticalTab, 2)
    else if t[1] == 'x' && |t| >= 4 && HexValue(t[2]) * 16 + HexValue(t[3]) < 128 then
      ((HexValue(t[2]) * 16 + HexValue(t[3])) as char, 4)
    else (t[0], 1)
  }

  lemma DecodeQuoteChar(c: char, rest: string)
    ensures |QuoteChar(c)| >= 1
    ensures DecodeFirst(QuoteChar(c) + rest) == (c, |QuoteChar(c)|)
  {
    var q := QuoteChar(c);
    if (c < ' ' || c == Delete) && q == "\\x" + [HexDigit(c as int / 16), HexDigit(c as int % 16)]
       && c != '\n' && c != '\t' && c != '\r' && c != Bell && c != Backspace && c != FormFeed && c != VerticalTab {
      HexRoundTrip(c as int / 16);
      HexRoundTrip(c as int % 16);
      var t := q + rest;
      assert t[0] == Backslash && t[1] == 'x';
      assert t[2] == HexDigit(c as int / 16) && t[3] == HexDigit(c as int % 16);
    }
  }

  lemma {:induction false} QuoteBodyInjective(a: string, b: string)
    requires QuoteBody(a) == QuoteBody(b)
    ensures a == b
    decreases |a|
  {
    if a == [] {
      if b != [] { DecodeQuoteChar(b[0], QuoteBody(b[1..])); }
    } else {
      DecodeQuoteChar(a[0], QuoteBody(a[1..]));
      if b == [] {
        assert false;
      }
      DecodeQuoteChar(b[0], QuoteBody(b[1..]));
      var t := QuoteBody(a);
      assert a[0] == b[0];
      var n := |QuoteChar(a[0])|;
      assert QuoteBody(a[1..]) == t[n..];
      assert QuoteBody(b[1..]) == t[n..];
      QuoteBodyInjective(a[1..], b[1..]);
      assert a == [a[0]] + a[1..];
      assert b == [b[0]] + b[1..];
    }
  }

  /** Different strings quote differently. */
  lemma QuoteInjective(a: string, b: string)
    requires Quote(a) == Quote(b)
    ensures a == b
  {
    var qa := Quote(a);
    assert qa[1..|qa| - 1] == QuoteBody(a);
    assert Quote(b)[1..|Quote(b)| - 1] == QuoteBody(b);
    QuoteBodyInjective(a, b);
  }

  // Fields of joined words -------------------------------------------------------------

  /** Skipping over a prefix p does not change where the runs of t start. */
  lemma {:induction false} SkipFromShift(p: string, t: string, i: nat, f: char -> bool)
    requires i <= |t|
    ensures SkipFrom(p + t, |p| + i, f) == |p| + SkipFrom(t, i, f)
    decreases |t| - i
  {
    if i < |t| {
      assert (p + t)[|p| + i] == t[i];
      if f(t[i]) {
        SkipFromShift(p, t, i + 1, f);
      }
    }
  }

  lemma {:induction false} WordEndShift(p: string, t: string, i: nat, f: char -> bool)
    requires i <= |t|
    ensures WordEnd(p + t, |p| + i, f) == |p| + WordEnd(t, i, f)
    decreases |t| - i
  {
    if i < |t| {
      assert (p + t)[|p| + i] == t[i];
      if !f(t[i]) {
        WordEndShift(p, t, i + 1, f);
      }
    }
  }

  /** The fields after a prefix are the fields of what follows it. */
  lemma {:induction false} FieldsFromShift(p: string, t: string, i: nat, f: char -> bool)
    requires i <= |t|
    ensures FieldsFrom(p + t, |p| + i, f) == FieldsFrom(t, i, f)
    decreases |t| - i
  {
    SkipFromShift(p, t, i, f);
    var a := SkipFrom(t, i, f);
    if a < |t| {
      WordEndShift(p, t, a, f);
      var b := WordEnd(t, a, f);
      assert (p + t)[|p| + a..|p| + b] == t[a..b];
      FieldsFromShift(p, t, b, f);
    }
    FieldsFromUnfold(t, i, f);
    FieldsFromUnfold(p + t, |p| + i, f);
  }

  /** One step of FieldsFrom: nothing left after the separators, or the next field and the
      fields after it. */
  lemma FieldsFromUnfold(s: string, i: nat, f: char -> bool)
    requires i <= |s|
    ensures var a := SkipFrom(s, i, f);
      && (a == |s| ==> FieldsFrom(s, i, f) == [])
      && (a < |s| ==> FieldsFrom(s, i, f) == [s[a..WordEnd(s, a, f)]] + FieldsFrom(s, WordEnd(s, a, f), f))
  {
  }

  /** A field followed by a space and more text: the field, then the fields of the text. */
  lemma FieldsCons(w: string, rest: string)
    requires IsField(w, IsSpace)
    ensures Fields(w + " " + rest) == [w] + Fields(rest)
  {
    var s := w + " " + rest;
    assert s[0] == w[0];
    assert SkipFrom(s, 0, IsSpace) == 0;
    assert s[|w|] == ' ';
    assert forall k :: 0 <= k < |w| ==> s[k] == w[k];
    assert WordEnd(s, 0, IsSpace) == |w|;
    assert s[0..|w|] == w;
    assert SkipFrom(s, |w|, IsSpace) == SkipFrom(s, |w| + 1, IsSpace);
    assert FieldsFrom(s, |w|, IsSpace) == FieldsFrom(s, |w| + 1, IsSpace);
    assert s == (w + " ") + rest;
    FieldsFromShift(w + " ", rest, 0, IsSpace);
  }

  /** A lone field is its only field. */
  lemma FieldsSingle(w: string)
    requires IsField(w, IsSpace)
    ensures Fields(w) == [w]
  {
    assert SkipFrom(w, 0, IsSpace) == 0;
    assert WordEnd(w, 0, IsSpace) == |w|;
    assert w[0..|w|] == w;
    assert FieldsFrom(w, |w|, IsSpace) == [];
  }

  /** Words joined by single spaces split back into the words. */
  lemma {:induction false} FieldsOfJoin(ws: seq<string>)
    requires forall k :: 0 <= k < |ws| ==> IsField(ws[k], IsSpace)
    ensures Fields(Join(ws, " ")) == ws
    decreases |ws|
  {
    if |ws| == 0 {
      assert SkipFrom("", 0, IsSpace) == 0;
    } else if |ws| == 1 {
      FieldsSingle(ws[0]);
    } else {
      FieldsOfJoin(ws[1..]);
      FieldsCons(ws[0], Join(ws[1..], " "));
    }
  }

  /** Joined words neither start nor end with white space. */
  lemma {:induction false} JoinFieldsUnpadded(ws: seq<string>)
    requires |ws| >= 1 && forall k :: 0 <= k < |ws| ==> IsField(ws[k], IsSpace)
    ensures IsField(ws[0], IsSpace) && |Join(ws, " ")| > 0 && Join(ws, " ")[0] == ws[0][0]
    ensures Unpadded(Join(ws, " "))
    decreases |ws|
  {
    if |ws| > 1 {
      JoinFieldsUnpadded(ws[1..]);
    }
  }

  /** Every piece is a field. */
  predicate AllFields(ws: seq<string>) {
    forall k :: 0 <= k < |ws| ==> IsField(ws[k], IsSpace)
  }

  lemma AllFieldsAppend(a: seq<string>, b: seq<string>)
    requires AllFields(a) && AllFields(b)
    ensures AllFields(a + b)
  {
    forall k | 0 <= k < |a + b|
      ensures IsField((a + b)[k], IsSpace)
    {
      if k >= |a| {
        assert (a + b)[k] == b[k - |a|];
      }
    }
  }

  /** Two fields written together make one field. */
  lemma FieldConcat(a: string, b: string)
    requires IsField(a, IsSpace) && IsField(b, IsSpace)
    ensures IsField(a + b, IsSpace)
  {
    forall k | 0 <= k < |a + b|
      ensures !IsSpace((a + b)[k])
    {
      if k >= |a| {
        assert (a + b)[k] == b[k - |a|];
      }
    }
  }

  /** A piece in front of a non-empty list of pieces. */
  lemma JoinCons(w: string, ws: seq<string>, sep: string)
    requires |ws| >= 1
    ensures Join([w] + ws, sep) == w + sep + Join(ws, sep)
  {
    assert ([w] + ws)[1..] == ws;
  }

  /** Joining two non-empty lists of pieces puts the separator between their joins. */
  lemma {:induction false} JoinAppend(a: seq<string>, b: seq<string>, sep: string)
    requires |a| >= 1 && |b| >= 1
    ensures Join(a + b, sep) == Join(a, sep) + sep + Join(b, sep)
    decreases |a|
  {
    if |a| == 1 {
      assert (a + b)[1..] == b;
    } else {
      assert (a + b)[1..] == a[1..] + b;
      JoinAppend(a[1..], b, sep);
    }
  }

  /** Extending the last piece extends the join. */
  lemma {:induction false} JoinExtendLast(ws: seq<string>, x: string, sep: string)
    requires |ws| >= 1
    ensures Join(ws[..|ws| - 1] + [ws[|ws| - 1] + x], sep) == Join(ws, sep) + x
    decreases |ws|
  {
    if |ws| == 1 {
      assert ws[..0] + [ws[0] + x] == [ws[0] + x];
    } else {
      var t := ws[1..];
      JoinExtendLast(t, x, sep);
      assert ws[..|ws| - 1] + [ws[|ws| - 1] + x] == [ws[0]] + (t[..|t| - 1] + [t[|t| - 1] + x]);
      assert ([ws[0]] + (t[..|t| - 1] + [t[|t| - 1] + x]))[1..] == t[..|t| - 1] + [t[|t| - 1] + x];
    }
  }

  /** A space before an unpadded string is what TrimSpace drops. */
  lemma TrimLeadingSpace(s: string)
    requires s != "" && Unpadded(s)
    ensures TrimSpace(" " + s) == s
  {
    var t := " " + s;
    assert SkipFrom(t, 1, IsSpace) == 1;
    assert SkipFrom(t, 0, IsSpace) == 1;
    var r := TrimSpace(t);
    assert r == t[1..1 + |r|];
    assert t[|t| - 1] == s[|s| - 1];
    assert t[1..] == s;
  }
}

// Quoted scalars (src/emit_util.rs, `single_quoted_body` and `double_quoted_body`), against
// a reader written from YAML 1.2.2: section 5.7 (escapes), 6.5 (line folding), 7.3.1 and
// 7.3.2 (the quoted styles) and 9.1.2 (document markers are forbidden inside).
module Quotes {
  import opened Wrappers
  import opened Seqs
  import opened Strings
  import opened Text

  datatype Quote = Single | Double

  function Mark(q: Quote): char { if q == Single then '\'' else '"' }

  // ----- Writing -----

  const HEX: string := "0123456789abcdef"

  // What one character of the value becomes between the quotes.
  function Escape(q: Quote, c: char): (s: string)
    ensures IsPiece(s) && (s == " " <==> c == ' ')
  {
    if q == Single then (if c == '\'' then "''" else [c])
    else if c == '"' then "\\\""
    else if c == '\\' then "\\\\"
    else if c == '\n' then "\\n"
    else if c == '\r' then "\\r"
    else if c == '\t' then "\\t"
    else if c == '\0' then "\\0"
    else if IsNonPrintable(c) then HexEscape(c)
    else [c]
  }

  function HexEscape(c: char): (s: string)
    requires IsNonPrintable(c)
    ensures |s| >= 2 && s[0] == '\\' && ' ' !in s
  {
    var n := c as int;
    if n <= 0xff then ['\\', 'x', HEX[n / 16], HEX[n % 16]]
    else ['\\', 'u', HEX[n / 4096], HEX[n / 256 % 16], HEX[n / 16 % 16], HEX[n % 16]]
  }

  // The pieces of a body, one a character: a lone space, or a run without any.
  function Pieces(q: Quote, value: string): (ps: seq<string>)
    ensures |ps| == |value| && ArePieces(ps)
  {
    seq(|value|, i requires 0 <= i < |value| => Escape(q, value[i]))
  }

  predicate IsPiece(p: string) { p == " " || (p != "" && ' ' !in p) }

  predicate ArePieces(ps: seq<string>) { forall i | 0 <= i < |ps| :: IsPiece(ps[i]) }

  // The first `n` pieces.
  function Joined(ps: seq<string>, n: nat): string
    requires n <= |ps|
  {
    if n == 0 then "" else Joined(ps, n - 1) + ps[n - 1]
  }

  function Body(q: Quote, value: string): string { Joined(Pieces(q, value), |value|) }

  // Which characters are escaped, and how.
  lemma EscapesExactly(c: char)
    ensures Escape(Single, c) == if c == '\'' then "''" else [c]
    ensures Escape(Double, c) == [c] <==> IsPrintable(c) && c !in {'"', '\\', '\n', '\r', '\t'}
    ensures Escape(Double, '"') == "\\\"" && Escape(Double, '\\') == "\\\\"
    ensures Escape(Double, '\n') == "\\n" && Escape(Double, '\r') == "\\r" && Escape(Double, '\t') == "\\t"
    ensures Escape(Double, '\0') == "\\0" && Escape(Double, '\U{7f}') == "\\x7f" && Escape(Double, '\U{ffff}') == "\\uffff"
  {
    NonPrintableExactly(c);
    assert HEX[15] == 'f' && HEX[7] == '7';
    if c != '\0' && IsNonPrintable(c) {
      assert |HexEscape(c)| >= 2;
    }
  }

  predicate StaysAsItIs(q: Quote, c: char) {
    if q == Single then c != '\'' else IsPrintable(c) && c !in {'"', '\\', '\n', '\r', '\t'}
  }

  lemma StaysExactly(q: Quote, c: char)
    ensures StaysAsItIs(q, c) <==> Escape(q, c) == [c]
  {
    EscapesExactly(c);
    hide Escape;
  }

  // Text that needs no escape is written as it is.
  lemma {:induction false} BodyIsText(q: Quote, value: string, n: nat)
    requires n <= |value|
    requires forall c <- value :: StaysAsItIs(q, c)
    ensures Joined(Pieces(q, value), n) == value[..n]
    ensures n == |value| ==> Body(q, value) == value
  {
    hide Escape, StaysAsItIs;
    if n > 0 {
      BodyIsText(q, value, n - 1);
      StaysExactly(q, value[n - 1]);
      assert value[n - 1] in value && value[..n] == value[..n - 1] + [value[n - 1]];
    }
    assert n == |value| ==> value[..n] == value;
  }

  // `double_quoted_body`.
  method DoubleQuotedBody(value: string) returns (out: string)
    ensures out == Body(Double, value)
  {
    out := "";
    for i := 0 to |value|
      invariant out == Joined(Pieces(Double, value), i)
    {
      out := out + Escape(Double, value[i]);
    }
  }

  // `single_quoted_body`.
  method SingleQuotedBody(value: string) returns (out: string)
    ensures out == Body(Single, value)
  {
    out := "";
    for i := 0 to |value|
      invariant out == Joined(Pieces(Single, value), i)
    {
      out := out + Escape(Single, value[i]);
    }
  }

  // `single_capable`: single quotes hold no break and escape nothing.
  predicate SingleCapable(value: string) {
    forall c <- value :: c as int >= 0x20 && !IsNonPrintable(c)
  }

  // `single_quotable`.
  predicate SingleQuotable(value: string, doubleQuotes: bool) {
    !doubleQuotes && '\'' !in value && SingleCapable(value)
  }

  predicate Holds(q: Quote, value: string) { q == Double || SingleCapable(value) }

  // ----- Reading -----

  // White space between two characters of a quoted scalar: on one line it is content; a
  // break drops the blanks around it, and folds. An escaped break leaves nothing itself.
  datatype Gap = Blanks(text: string) | Breaks(extra: nat, escaped: bool)

  function Folded(g: Gap): string {
    match g
    case Blanks(text) => text
    case Breaks(extra, escaped) => if extra == 0 && !escaped then " " else Repeat('\n', extra)
  }

  function WithBlank(g: Gap, c: char): Gap { if g.Blanks? then Blanks(g.text + [c]) else g }

  function WithBreak(g: Gap): Gap { if g.Blanks? then Breaks(0, false) else Breaks(g.extra + 1, g.escaped) }

  predicate IsBreak(c: char) { c == '\n' || c == '\r' }

  // A document marker at the start of a line.
  predicate IsMarker(s: string) {
    |s| >= 3 && (s[..3] == "---" || s[..3] == "...") && (|s| == 3 || IsBlank(s[3]) || IsBreak(s[3]))
  }

  // What follows a break, with a carriage return and line feed as one.
  function AfterBreak(s: string): (rest: string)
    requires s != "" && IsBreak(s[0])
    ensures |rest| < |s|
  {
    if |s| > 1 && s[0] == '\r' && s[1] == '\n' then s[2..] else s[1..]
  }

  datatype Escaped = Escaped(c: char, rest: string)

  predicate IsScalarValue(n: nat) { n < 0xd800 || 0xe000 <= n < 0x11_0000 }

  function HexValue(s: string, n: nat): nat
    requires n <= |s|
  {
    if n == 0 then 0 else 16 * HexValue(s, n - 1) + DigitValue(s[n - 1])
  }

  function ReadHex(s: string, n: nat): Option<Escaped> {
    if |s| < n || (exists i | 0 <= i < n :: DigitValue(s[i]) == 16) || !IsScalarValue(HexValue(s, n)) then None
    else Some(Escaped(HexValue(s, n) as char, s[n..]))
  }

  // The escapes of section 5.7, after the backslash; an escaped break is `ReadOn`'s.
  function ReadEscape(s: string): (r: Option<Escaped>)
    ensures r.Some? ==> |r.value.rest| < |s|
  {
    if s == "" then None
    else
      var rest := s[1..];
      match s[0]
      case '0' => Some(Escaped('\0', rest))
      case 'a' => Some(Escaped('\U{07}', rest))
      case 'b' => Some(Escaped('\U{08}', rest))
      case 't' => Some(Escaped('\t', rest))
      case '\t' => Some(Escaped('\t', rest))
      case 'n' => Some(Escaped('\n', rest))
      case 'v' => Some(Escaped('\U{0b}', rest))
      case 'f' => Some(Escaped('\U{0c}', rest))
      case 'r' => Some(Escaped('\r', rest))
      case 'e' => Some(Escaped('\U{1b}', rest))
      case ' ' => Some(Escaped(' ', rest))
      case '"' => Some(Escaped('"', rest))
      case '/' => Some(Escaped('/', rest))
      case '\\' => Some(Escaped('\\', rest))
      case 'N' => Some(Escaped('\U{85}', rest))
      case '_' => Some(Escaped('\U{a0}', rest))
      case 'L' => Some(Escaped('\U{2028}', rest))
      case 'P' => Some(Escaped('\U{2029}', rest))
      case 'x' => ReadHex(rest, 2)
      case 'u' => ReadHex(rest, 4)
      case 'U' => ReadHex(rest, 8)
      case _ => None
  }

  // A scalar's value, and the text after its closing quote.
  datatype Scalar = Scalar(value: string, rest: string)

  function Before(text: string, r: Option<Scalar>): Option<Scalar> {
    match r
    case None => None
    case Some(scalar) => Some(Scalar(text + scalar.value, scalar.rest))
  }

  // Reads on from inside the quotes, one character at a time.
  function ReadOn(q: Quote, s: string, g: Gap): Option<Scalar>
    decreases |s|
  {
    if s == "" then None
    else if IsBlank(s[0]) then ReadOn(q, s[1..], WithBlank(g, s[0]))
    else if IsBreak(s[0]) then
      if IsMarker(AfterBreak(s)) then None else ReadOn(q, AfterBreak(s), WithBreak(g))
    else if IsNonPrintable(s[0]) then None
    else if q == Double && s[0] == '\\' && |s| > 1 && IsBreak(s[1]) then
      if IsMarker(AfterBreak(s[1..])) then None
      else Before(Folded(g), ReadOn(q, AfterBreak(s[1..]), Breaks(0, true)))
    else ReadContent(q, s, g)
  }

  // A character that is neither white space nor a break ends the gap before it.
  function ReadContent(q: Quote, s: string, g: Gap): Option<Scalar>
    requires s != ""
    decreases |s|, 0
  {
    if q == Single && s[0] == '\'' && |s| > 1 && s[1] == '\'' then
      Before(Folded(g) + "'", ReadOn(q, s[2..], Blanks("")))
    else if s[0] == Mark(q) then Some(Scalar(Folded(g), s[1..]))
    else if q == Double && s[0] == '\\' then
      var e := ReadEscape(s[1..]);
      if e.None? then None else Before(Folded(g) + [e.value.c], ReadOn(q, e.value.rest, Blanks("")))
    else Before(Folded(g) + [s[0]], ReadOn(q, s[1..], Blanks("")))
  }

  // A whole quoted scalar, from its opening quote.
  function ReadQuoted(s: string): Option<Scalar> {
    if s == "" then None
    else if s[0] == '"' then ReadOn(Double, s[1..], Blanks(""))
    else if s[0] == '\'' then ReadOn(Single, s[1..], Blanks(""))
    else None
  }

  // ----- One character reads back -----

  lemma HexReadsBack(c: char, rest: string)
    requires IsNonPrintable(c)
    ensures ReadEscape(HexEscape(c)[1..] + rest) == Some(Escaped(c, rest))
  {
    if c as int <= 0xff {
      ShortReadsBack(c, rest);
    } else {
      LongReadsBack(c, rest);
    }
  }

  lemma ShortReadsBack(c: char, rest: string)
    requires IsNonPrintable(c) && c as int <= 0xff
    ensures ReadEscape(HexEscape(c)[1..] + rest) == Some(Escaped(c, rest))
  {
    hide ReadHex;
    var n := c as int;
    TwoDigits(n, rest);
    var digits := [HEX[n / 16], HEX[n % 16]] + rest;
    assert HexEscape(c)[1..] + rest == ['x'] + digits && (['x'] + digits)[1..] == digits;
  }

  lemma LongReadsBack(c: char, rest: string)
    requires IsNonPrintable(c) && c as int > 0xff
    ensures ReadEscape(HexEscape(c)[1..] + rest) == Some(Escaped(c, rest))
  {
    hide ReadHex;
    var n := c as int;
    DigitsCompose(n);
    FourDigits(n / 4096, n / 256 % 16, n / 16 % 16, n % 16, rest);
    var digits := [HEX[n / 4096], HEX[n / 256 % 16], HEX[n / 16 % 16], HEX[n % 16]] + rest;
    assert HexEscape(c)[1..] + rest == ['u'] + digits && (['u'] + digits)[1..] == digits;
  }

  lemma HexDigit(d: nat)
    requires d < 16
    ensures DigitValue(HEX[d]) == d
  {
  }

  lemma HexMore(s: string, n: nat, v: nat, d: nat)
    requires n < |s| && HexValue(s, n) == v && d < 16 && s[n] == HEX[d]
    ensures HexValue(s, n + 1) == 16 * v + d && DigitValue(s[n]) == d
  {
    HexDigit(d);
  }

  lemma TwoDigits(n: nat, rest: string)
    requires n <= 0xff
    ensures ReadHex([HEX[n / 16], HEX[n % 16]] + rest, 2) == Some(Escaped(n as char, rest))
  {
    var s := [HEX[n / 16], HEX[n % 16]] + rest;
    assert s[0] == HEX[n / 16] && s[1] == HEX[n % 16] && s[2..] == rest;
    HexMore(s, 0, 0, n / 16);
    HexMore(s, 1, n / 16, n % 16);
    hide HexValue;
    assert HexValue(s, 2) == n;
  }

  lemma FourDigits(w: nat, x: nat, y: nat, z: nat, rest: string)
    requires w < 16 && x < 16 && y < 16 && z < 16
    requires IsScalarValue(16 * (16 * (16 * w + x) + y) + z)
    ensures ReadHex([HEX[w], HEX[x], HEX[y], HEX[z]] + rest, 4)
            == Some(Escaped((16 * (16 * (16 * w + x) + y) + z) as char, rest))
  {
    var s := [HEX[w], HEX[x], HEX[y], HEX[z]] + rest;
    assert s[0] == HEX[w] && s[1] == HEX[x] && s[2] == HEX[y] && s[3] == HEX[z] && s[4..] == rest;
    HexMore(s, 0, 0, w);
    HexMore(s, 1, w, x);
    HexMore(s, 2, 16 * w + x, y);
    HexMore(s, 3, 16 * (16 * w + x) + y, z);
  }

  lemma DigitsCompose(n: nat)
    ensures n == 16 * (16 * (16 * (n / 4096) + n / 256 % 16) + n / 16 % 16) + n % 16
  {
    assert n / 4096 == n / 256 / 16 && n / 256 == n / 16 / 16;
  }

  lemma EscapedReadsBack(c: char, tail: string, rest: string, g: Gap)
    requires tail != "" && !IsBreak(tail[0]) && ReadEscape(tail) == Some(Escaped(c, rest))
    ensures ReadOn(Double, ['\\'] + tail, g) == Before(Folded(g) + [c], ReadOn(Double, rest, Blanks("")))
  {
    var s := ['\\'] + tail;
    assert s[1..] == tail && s[1] == tail[0];
  }

  lemma NamedReadsBack(c: char, letter: char, rest: string, g: Gap)
    requires Escape(Double, c) == ['\\', letter]
    requires letter in {'"', '\\', 'n', 'r', 't', '0'}
    ensures ReadOn(Double, Escape(Double, c) + rest, g)
            == Before(Folded(g) + [c], ReadOn(Double, rest, Blanks("")))
  {
    var tail := [letter] + rest;
    assert tail[1..] == rest;
    assert Escape(Double, c) + rest == ['\\'] + tail;
    EscapedReadsBack(c, tail, rest, g);
  }

  lemma RawReadsBack(c: char, rest: string, g: Gap)
    requires Escape(Double, c) == [c] && c != ' '
    ensures ReadOn(Double, Escape(Double, c) + rest, g)
            == Before(Folded(g) + [c], ReadOn(Double, rest, Blanks("")))
  {
    assert ([c] + rest)[1..] == rest;
  }

  lemma EscapedHexReadsBack(c: char, rest: string, g: Gap)
    requires IsNonPrintable(c)
    ensures ReadOn(Double, HexEscape(c) + rest, g) == Before(Folded(g) + [c], ReadOn(Double, rest, Blanks("")))
  {
    var e := HexEscape(c);
    HexReadsBack(c, rest);
    assert e + rest == ['\\'] + (e[1..] + rest);
    assert !IsBreak((e[1..] + rest)[0]);
    EscapedReadsBack(c, e[1..] + rest, rest, g);
  }

  // An escaped character other than a space ends the gap before it, and reads as itself.
  lemma CharacterReadsBack(q: Quote, c: char, rest: string, g: Gap)
    requires c != ' ' && Holds(q, [c])
    ensures ReadOn(q, Escape(q, c) + rest, g) == Before(Folded(g) + [c], ReadOn(q, rest, Blanks("")))
  {
    var e := Escape(q, c);
    if q == Single {
      assert c in [c];
      SingleReadsBack(c, rest, g);
    } else if c in {'"', '\\', '\n', '\r', '\t', '\0'} {
      NamedReadsBack(c, e[1], rest, g);
    } else if IsNonPrintable(c) {
      EscapedHexReadsBack(c, rest, g);
    } else {
      RawReadsBack(c, rest, g);
    }
  }

  lemma SingleReadsBack(c: char, rest: string, g: Gap)
    requires c != ' ' && c as int >= 0x20 && !IsNonPrintable(c)
    ensures ReadOn(Single, Escape(Single, c) + rest, g)
            == Before(Folded(g) + [c], ReadOn(Single, rest, Blanks("")))
  {
    if c == '\'' {
      assert ("''" + rest)[2..] == rest;
    } else {
      assert ([c] + rest)[1..] == rest;
    }
  }

  // ----- A folded body reads back -----

  // A space that stands alone between two other characters.
  predicate Breakable(b: string, i: int) {
    0 < i < |b| - 1 && b[i] == ' ' && b[i - 1] != ' ' && b[i + 1] != ' '
  }

  function LineBreak(indent: nat): string { "\n" + Spaces(indent) }

  // `b` from `i` on, with a break and `indent` spaces for each space in `at`.
  function Broken(b: string, i: nat, at: set<nat>, indent: nat): string
    requires i <= |b|
    decreases |b| - i
  {
    if i == |b| then ""
    else (if i in at then LineBreak(indent) else [b[i]]) + Broken(b, i + 1, at, indent)
  }

  predicate AreBreakable(b: string, at: set<nat>) { forall i <- at :: Breakable(b, i) }

  predicate NoneIn(at: set<nat>, i: nat, j: nat) { forall k: nat | i <= k < j :: k !in at }

  lemma {:induction false} BrokenPiece(b: string, i: nat, j: nat, at: set<nat>, indent: nat)
    requires i <= j <= |b| && NoneIn(at, i, j)
    ensures Broken(b, i, at, indent) == b[i..j] + Broken(b, j, at, indent)
    decreases j - i
  {
    if i < j {
      BrokenPiece(b, i + 1, j, at, indent);
      assert b[i..j] == [b[i]] + b[i + 1..j];
      Regroup([b[i]], b[i + 1..j], Broken(b, j, at, indent));
    } else {
      assert b[i..j] == "";
    }
  }

  lemma {:induction false} JoinedPrefix(ps: seq<string>, m: nat, n: nat)
    requires m <= n <= |ps|
    ensures Joined(ps, m) <= Joined(ps, n)
    ensures |Joined(ps, m)| <= |Joined(ps, n)|
  {
    if m < n {
      JoinedPrefix(ps, m, n - 1);
    }
  }

  lemma InPlace(b: string, before: string, e: string, k: nat)
    requires before + e <= b && k < |e|
    ensures |before| + |e| <= |b| && b[|before|..|before| + |e|] == e
    ensures b[|before| + k] == e[k]
  {
    assert b[|before| + k] == (before + e)[|before| + k];
  }

  // Where piece `n` lies, and its `k`-th character.
  lemma PieceAt(ps: seq<string>, n: nat, k: nat)
    requires n < |ps| && k < |ps[n]|
    ensures var b, i := Joined(ps, |ps|), |Joined(ps, n)|;
            && i + |ps[n]| == |Joined(ps, n + 1)| <= |b|
            && b[i..i + |ps[n]|] == ps[n]
            && b[i + k] == ps[n][k]
  {
    JoinedPrefix(ps, n + 1, |ps|);
    InPlace(Joined(ps, |ps|), Joined(ps, n), ps[n], k);
  }

  lemma PieceBefore(ps: seq<string>, n: nat)
    requires 0 < n <= |ps| && ArePieces(ps)
    ensures var b, i := Joined(ps, |ps|), |Joined(ps, n)|;
            0 < i <= |b| && (b[i - 1] == ' ' <==> ps[n - 1] == " ")
  {
    assert IsPiece(ps[n - 1]);
    PieceAt(ps, n - 1, |ps[n - 1]| - 1);
  }

  lemma {:induction false} ReadSpaces(q: Quote, k: nat, rest: string, g: Gap)
    requires g.Breaks?
    ensures ReadOn(q, Spaces(k) + rest, g) == ReadOn(q, rest, g)
  {
    if k == 0 {
      assert Spaces(k) + rest == rest;
    } else {
      assert (Spaces(k) + rest)[1..] == Spaces(k - 1) + rest;
      ReadSpaces(q, k - 1, rest, g);
    }
  }

  lemma ReadLineBreak(q: Quote, indent: nat, rest: string)
    requires indent >= 1
    ensures ReadOn(q, LineBreak(indent) + rest, Blanks("")) == ReadOn(q, rest, Breaks(0, false))
  {
    var s := LineBreak(indent) + rest;
    assert s[1..] == Spaces(indent) + rest;
    assert !IsMarker(s[1..]) by { assert s[1] == ' '; assert s[1..][0] == ' '; }
    ReadSpaces(q, indent, rest, Breaks(0, false));
  }

  lemma CloseReadsBack(q: Quote, rest: string, g: Gap)
    requires q == Single && rest != "" ==> rest[0] != '\''
    ensures ReadOn(q, [Mark(q)] + rest, g) == Some(Scalar(Folded(g), rest))
  {
    assert ([Mark(q)] + rest)[1..] == rest;
  }

  // The pieces from `n` on, broken, and closed.
  function Rest(ps: seq<string>, n: nat, at: set<nat>, indent: nat, close: string): string
    requires n <= |ps|
  {
    JoinedPrefix(ps, n, |ps|);
    Broken(Joined(ps, |ps|), |Joined(ps, n)|, at, indent) + close
  }

  lemma NoBreakInside(b: string, i: nat, e: string, at: set<nat>)
    requires AreBreakable(b, at) && i !in at && i + |e| <= |b| && b[i..i + |e|] == e && IsPiece(e)
    ensures NoneIn(at, i, i + |e|)
  {
    forall j: nat | i < j < i + |e| ensures j !in at {
      assert b[j] == b[i..i + |e|][j - i];
    }
  }

  lemma RestUnbroken(ps: seq<string>, n: nat, at: set<nat>, indent: nat, close: string)
    requires n < |ps| && ArePieces(ps) && AreBreakable(Joined(ps, |ps|), at) && |Joined(ps, n)| !in at
    ensures Rest(ps, n, at, indent, close) == ps[n] + Rest(ps, n + 1, at, indent, close)
  {
    hide Broken, Joined;
    assert IsPiece(ps[n]);
    PieceAt(ps, n, 0);
    SkipPiece(Joined(ps, |ps|), |Joined(ps, n)|, ps[n], at, indent, close);
  }

  lemma SkipPiece(b: string, i: nat, e: string, at: set<nat>, indent: nat, close: string)
    requires i + |e| <= |b| && b[i..i + |e|] == e && IsPiece(e) && AreBreakable(b, at) && i !in at
    ensures Broken(b, i, at, indent) + close == e + (Broken(b, i + |e|, at, indent) + close)
  {
    var j := i + |e|;
    NoBreakInside(b, i, e, at);
    BrokenPiece(b, i, j, at, indent);
    Regroup(e, Broken(b, j, at, indent), close);
  }

  lemma StartsWithSpace(ps: seq<string>, n: nat)
    requires n < |ps| && ArePieces(ps)
    ensures |Joined(ps, n)| < |Joined(ps, |ps|)|
    ensures Joined(ps, |ps|)[|Joined(ps, n)|] == ' ' <==> ps[n] == " "
    ensures |Joined(ps, n + 1)| == |Joined(ps, n)| + |ps[n]|
  {
    assert IsPiece(ps[n]);
    PieceAt(ps, n, 0);
  }

  // A space that may be broken is a piece, and the pieces beside it are not spaces.
  lemma BreakableSpace(ps: seq<string>, n: nat)
    requires n < |ps| && ArePieces(ps) && |Joined(ps, n)| <= |Joined(ps, |ps|)|
    requires Breakable(Joined(ps, |ps|), |Joined(ps, n)|)
    ensures ps[n] == " " && n + 1 < |ps| && ps[n + 1] != " " && n > 0 && ps[n - 1] != " "
  {
    StartsWithSpace(ps, n);
    if n > 0 {
      PieceBefore(ps, n);
    }
    if n + 1 < |ps| {
      StartsWithSpace(ps, n + 1);
    }
  }

  lemma RestBroken(ps: seq<string>, n: nat, at: set<nat>, indent: nat, close: string)
    requires n < |ps| && ArePieces(ps) && AreBreakable(Joined(ps, |ps|), at) && |Joined(ps, n)| in at
    ensures Rest(ps, n, at, indent, close) == LineBreak(indent) + Rest(ps, n + 1, at, indent, close)
    ensures ps[n] == " " && n + 1 < |ps| && ps[n + 1] != " " && n > 0 && ps[n - 1] != " "
  {
    JoinedPrefix(ps, n, |ps|);
    BreakableSpace(ps, n);
    var b, i := Joined(ps, |ps|), |Joined(ps, n)|;
    JoinedPrefix(ps, n + 1, |ps|);
    Regroup(LineBreak(indent), Broken(b, i + 1, at, indent), close);
  }

  predicate Reads(q: Quote, s: string, g: Gap, tail: string, rest: string) {
    ReadOn(q, s, g) == Some(Scalar(Folded(g) + tail, rest))
  }

  lemma SpaceStep(q: Quote, after: string, g: Gap, tail: string, rest: string)
    requires g.Blanks? && Reads(q, after, WithBlank(g, ' '), tail, rest)
    ensures Reads(q, " " + after, g, " " + tail, rest)
  {
    assert (" " + after)[1..] == after;
    Regroup(g.text, " ", tail);
  }

  lemma CharacterStep(q: Quote, c: char, after: string, g: Gap, tail: string, rest: string)
    requires c != ' ' && Holds(q, [c]) && Reads(q, after, Blanks(""), tail, rest)
    ensures Reads(q, Escape(q, c) + after, g, [c] + tail, rest)
  {
    CharacterReadsBack(q, c, after, g);
    assert "" + tail == tail;
    Regroup(Folded(g), [c], tail);
  }

  lemma BreakStep(q: Quote, after: string, indent: nat, tail: string, rest: string)
    requires indent >= 1 && Reads(q, after, Breaks(0, false), tail, rest)
    ensures Reads(q, LineBreak(indent) + after, Blanks(""), " " + tail, rest)
  {
    ReadLineBreak(q, indent, after);
    assert "" + (" " + tail) == " " + tail;
  }

  // Whatever isolated spaces of the body are broken, reading on from character `n` gives
  // the rest of the value. A gap of blanks means that a space came just before.
  lemma {:induction false} BrokenReadsBack(
      q: Quote, value: string, n: nat, at: set<nat>, indent: nat, rest: string, g: Gap)
    requires n <= |value| && Holds(q, value) && AreBreakable(Body(q, value), at) && indent >= 1
    requires q == Single && rest != "" ==> rest[0] != '\''
    requires g.Blanks? && g.text != "" ==> n > 0 && value[n - 1] == ' '
    requires g.Breaks? ==> n < |value| && value[n] != ' '
    ensures Reads(q, Rest(Pieces(q, value), n, at, indent, [Mark(q)] + rest), g, value[n..], rest)
    decreases |value| - n
  {
    var ps, close := Pieces(q, value), [Mark(q)] + rest;
    if n == |value| {
      CloseReadsBack(q, rest, g);
      assert Rest(ps, n, at, indent, close) == close;
      assert Folded(g) + value[n..] == Folded(g);
    } else {
      var c, after := value[n], Rest(ps, n + 1, at, indent, close);
      assert value[n..] == [c] + value[n + 1..];
      assert ps[n] == Escape(q, c);
      if |Joined(ps, n)| in at {
        RestBroken(ps, n, at, indent, close);
        NextToSpace(q, value, n);
        BrokenReadsBack(q, value, n + 1, at, indent, rest, Breaks(0, false));
        BreakStep(q, after, indent, value[n + 1..], rest);
      } else {
        RestUnbroken(ps, n, at, indent, close);
        if c == ' ' {
          BrokenReadsBack(q, value, n + 1, at, indent, rest, WithBlank(g, ' '));
          SpaceStep(q, after, g, value[n + 1..], rest);
        } else {
          BrokenReadsBack(q, value, n + 1, at, indent, rest, Blanks(""));
          HoldsEach(q, value, n);
          CharacterStep(q, c, after, g, value[n + 1..], rest);
        }
      }
    }
  }

  lemma NextToSpace(q: Quote, value: string, n: nat)
    requires 0 < n < |value| - 1
    requires var ps := Pieces(q, value); ps[n] == " " && ps[n + 1] != " " && ps[n - 1] != " "
    ensures value[n] == ' ' && value[n + 1] != ' ' && value[n - 1] != ' '
  {
    var ps := Pieces(q, value);
    assert ps[n] == Escape(q, value[n]) && ps[n + 1] == Escape(q, value[n + 1]);
    assert ps[n - 1] == Escape(q, value[n - 1]);
  }

  lemma HoldsEach(q: Quote, value: string, n: nat)
    requires n < |value| && Holds(q, value)
    ensures Holds(q, [value[n]])
  {
  }

  // Quoting undone: folded at any of its isolated spaces, or at none, a quoted body reads
  // back as the value, and the scalar ends where the emitter closed it.
  lemma QuotedReadsBack(q: Quote, value: string, at: set<nat>, indent: nat, rest: string)
    requires Holds(q, value) && AreBreakable(Body(q, value), at) && indent >= 1
    requires q == Single && rest != "" ==> rest[0] != '\''
    ensures ReadQuoted([Mark(q)] + Broken(Body(q, value), 0, at, indent) + [Mark(q)] + rest)
            == Some(Scalar(value, rest))
  {
    BrokenReadsBack(q, value, 0, at, indent, rest, Blanks(""));
    var body, close := Broken(Body(q, value), 0, at, indent), [Mark(q)] + rest;
    assert [Mark(q)] + body + [Mark(q)] + rest == [Mark(q)] + (body + close);
    assert ([Mark(q)] + (body + close))[1..] == body + close;
    assert "" + value[0..] == value;
  }
}

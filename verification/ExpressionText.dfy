/**
 Startup compares policy expressions by their text with white space normalised. This module proves
 when that comparison is sound: equal normal forms mean the same CEL program exactly when the
 required text keeps white space out of its string literals. Texts with comments, raw, byte or
 triple-quoted literals are told apart first: nothing is claimed of what CEL makes of them.
 */
module ExpressionText {
  import opened Common
  import opened Text

  // ---------------------------------------------------------------- normalize_expression

  function WordEnd(s: string): (n: nat)
    ensures n <= |s|
    ensures forall i :: 0 <= i < n ==> !IsWhite(s[i])
    ensures n < |s| ==> IsWhite(s[n])
  {
    if s == "" || IsWhite(s[0]) then 0 else 1 + WordEnd(s[1..])
  }

  function Words(s: string): seq<string> {
    if s == "" then []
    else if IsWhite(s[0]) then Words(s[1..])
    else [s[..WordEnd(s)]] + Words(s[WordEnd(s)..])
  }

  function Join(words: seq<string>): string {
    if words == [] then ""
    else if |words| == 1 then words[0]
    else words[0] + " " + Join(words[1..])
  }

  function Normalize(s: string): string { Join(Words(s)) }

  // ---------------------------------------------------------------- what CEL's scanner sees

  /** Where in the program text the scanner is: in code, in a quoted literal, or after a backslash. */
  datatype Mode = Code | Inside(quote: char) | Escape(quote: char)

  function Advance(m: Mode, c: char): Mode {
    match m
    case Code => if c == '"' || c == '\'' then Inside(c) else Code
    case Inside(q) => if c == q then Code else if c == '\\' then Escape(q) else m
    case Escape(q) => Inside(q)
  }

  /** The white space CEL skips. Any other character of white space between tokens stops its scanner. */
  predicate CelWhite(c: char) { c == ' ' || c == '\t' || c == '\n' || c == '\r' || c as int == 0x0C }

  predicate Quote(c: char) { c == '"' || c == '\'' }

  /** Read in code right after `last`, `c` starts a comment, a prefixed literal or a triple quote. */
  predicate Exotic(last: char, c: char) {
    || (c == '/' && last == '/')
    || (Quote(c) && (Quote(last) || last == 'r' || last == 'R' || last == 'b' || last == 'B'))
  }

  function Seen(c: char): char { if IsWhite(c) then ' ' else c }

  /** Nothing exotic stands in code; `last` is what was read before `s`. */
  predicate Plain(s: string, m: Mode, last: char) {
    s == "" || ((m == Code ==> !Exotic(last, s[0])) && Plain(s[1..], Advance(m, s[0]), Seen(s[0])))
  }

  predicate PlainText(s: string) { Plain(s, Code, ' ') }

  /** White space between tokens is CEL's own. */
  predicate Skippable(s: string, m: Mode) {
    s == "" || ((m == Code && IsWhite(s[0]) ==> CelWhite(s[0])) && Skippable(s[1..], Advance(m, s[0])))
  }

  predicate Reachable(m: Mode) { m == Code || m.quote == '"' || m.quote == '\'' }

  function FinalMode(s: string, m: Mode): Mode {
    if s == "" then m else FinalMode(s[1..], Advance(m, s[0]))
  }

  /** The text up to what the scanner discards: runs of white space between tokens count as one
      separator, literals are kept to the letter. */
  function Scanned(s: string, m: Mode, started: bool, gap: bool): string {
    if s == "" then ""
    else if IsWhite(s[0]) && m == Code then Scanned(s[1..], m, started, true)
    else (if started && gap then " " else "") + [s[0]] + Scanned(s[1..], Advance(m, s[0]), true, false)
  }

  function Program(s: string): string { Scanned(s, Code, false, false) }

  /** No white space inside a literal. */
  predicate Clean(s: string, m: Mode) {
    s == "" || ((IsWhite(s[0]) ==> m == Code) && Clean(s[1..], Advance(m, s[0])))
  }

  predicate Terminated(s: string) { FinalMode(s, Code) == Code }

  // ---------------------------------------------------------------- normalisation as a scan

  function Collapsed(s: string, started: bool, gap: bool): string {
    if s == "" then ""
    else if IsWhite(s[0]) then Collapsed(s[1..], started, true)
    else (if started && gap then " " else "") + [s[0]] + Collapsed(s[1..], true, false)
  }

  lemma {:induction false} CollapsedWord(w: string, rest: string, started: bool, gap: bool)
    requires forall i :: 0 <= i < |w| ==> !IsWhite(w[i])
    requires w != ""
    ensures Collapsed(w + rest, started, gap) == (if started && gap then " " else "") + w + Collapsed(rest, true, false)
    decreases |w|
  {
    assert (w + rest)[1..] == w[1..] + rest;
    if |w| == 1 {
      assert w[1..] + rest == rest && [w[0]] == w;
    } else {
      CollapsedWord(w[1..], rest, true, false);
      assert w == [w[0]] + w[1..];
    }
  }

  lemma JoinCons(w: string, ws: seq<string>)
    ensures Join([w] + ws) == if ws == [] then w else w + (" " + Join(ws))
  {
    assert ([w] + ws)[1..] == ws;
  }

  lemma WordsStep(s: string)
    requires s != "" && !IsWhite(s[0])
    ensures WordEnd(s) > 0 && Words(s) == [s[..WordEnd(s)]] + Words(s[WordEnd(s)..])
  {
    hide Join, IsWhite;
  }

  lemma {:induction false} CollapsedJoins(s: string, started: bool, gap: bool)
    requires started && !gap ==> s == "" || IsWhite(s[0])
    ensures Collapsed(s, started, gap) ==
            (if Words(s) == [] then "" else (if started then " " else "") + Join(Words(s)))
    decreases |s|
  {
    if s == "" {
    } else if IsWhite(s[0]) {
      CollapsedJoins(s[1..], started, true);
    } else {
      var n := WordEnd(s);
      var w, rest := s[..n], s[n..];
      var blank := if started then " " else "";
      WordsStep(s);
      assert s == w + rest && (rest != "" ==> IsWhite(rest[0]));
      assert forall i :: 0 <= i < |w| ==> !IsWhite(w[i]);
      CollapsedWord(w, rest, started, gap);
      CollapsedJoins(rest, true, false);
      JoinCons(w, Words(rest));
      hide Collapsed, Words, Join, WordEnd;
      ConcatAssociative(blank, w, Collapsed(rest, true, false));
    }
  }

  lemma NormalizeIsCollapsed(s: string)
    ensures Normalize(s) == Collapsed(s, false, false)
  {
    CollapsedJoins(s, false, false);
  }

  // ---------------------------------------------------------------- normal forms and words

  predicate Word(w: string) { w != "" && forall i :: 0 <= i < |w| ==> !IsWhite(w[i]) }

  lemma {:induction false} WordEndAppend(a: string, b: string)
    ensures WordEnd(a + (" " + b)) == WordEnd(a)
  {
    if a == "" {
      assert a + (" " + b) == " " + b;
    } else {
      assert (a + (" " + b))[1..] == a[1..] + (" " + b);
      WordEndAppend(a[1..], b);
    }
  }

  /** Words on either side of a blank are found separately. */
  lemma {:induction false} WordsAppend(a: string, b: string)
    ensures Words(a + (" " + b)) == Words(a) + Words(b)
    decreases |a|
  {
    var s := a + (" " + b);
    if a == "" {
      assert s == " " + b && s[1..] == b;
    } else if IsWhite(a[0]) {
      assert s[1..] == a[1..] + (" " + b);
      WordsAppend(a[1..], b);
    } else {
      var n := WordEnd(a);
      WordEndAppend(a, b);
      assert s[..n] == a[..n] && s[n..] == a[n..] + (" " + b);
      WordsAppend(a[n..], b);
    }
  }

  lemma WordsOfWord(w: string)
    requires Word(w)
    ensures Words(w) == [w]
  {
    assert WordEnd(w) == |w|;
    assert w[..|w|] == w && w[|w|..] == "";
  }

  lemma {:induction false} WordsAreWords(s: string)
    ensures forall i :: 0 <= i < |Words(s)| ==> Word(Words(s)[i])
  {
    if s != "" {
      if IsWhite(s[0]) { WordsAreWords(s[1..]); } else { WordsAreWords(s[WordEnd(s)..]); }
    }
  }

  lemma {:induction false} WordsOfJoin(ws: seq<string>)
    requires forall i :: 0 <= i < |ws| ==> Word(ws[i])
    ensures Words(Join(ws)) == ws
  {
    if |ws| == 1 {
      WordsOfWord(ws[0]);
    } else if ws != [] {
      WordsOfWord(ws[0]);
      WordsOfJoin(ws[1..]);
      WordsAppend(ws[0], Join(ws[1..]));
      assert Join(ws) == ws[0] + (" " + Join(ws[1..]));
    }
  }

  /** Two texts have one normal form exactly when they are made of the same words. */
  lemma NormalFormIsItsWords(s: string, t: string)
    ensures Normalize(s) == Normalize(t) <==> Words(s) == Words(t)
  {
    WordsAreWords(s);
    WordsAreWords(t);
    WordsOfJoin(Words(s));
    WordsOfJoin(Words(t));
  }

  // ---------------------------------------------------------------- texts whose escapes are whole

  /** No white space follows a backslash inside a literal. */
  predicate Steady(s: string, m: Mode) {
    s == "" || ((IsWhite(s[0]) ==> !m.Escape?) && Steady(s[1..], Advance(m, s[0])))
  }

  /** Read from inside a literal, the text never closes it. */
  predicate Contained(s: string, m: Mode) {
    m != Code && (s == "" || Contained(s[1..], Advance(m, s[0])))
  }

  lemma WhiteKeepsMode(m: Mode, c: char)
    requires IsWhite(c) && !m.Escape? && Reachable(m)
    ensures Advance(m, c) == m
  {}

  lemma {:induction false} NormalFormKeepsSteady(s: string, m: Mode, last: char, started: bool, gap: bool)
    requires Steady(s, m) && Reachable(m) && (gap ==> !m.Escape?) && (!started ==> last == ' ')
    ensures var out := Collapsed(s, started, gap);
            && Steady(out, m) && FinalMode(out, m) == FinalMode(s, m) && (Contained(out, m) <==> Contained(s, m))
            && (Plain(out, m, last) <==> Plain(s, m, if gap then ' ' else last))
    decreases |s|
  {
    if s != "" {
      if IsWhite(s[0]) {
        WhiteKeepsMode(m, s[0]);
        NormalFormKeepsSteady(s[1..], m, last, started, true);
      } else {
        var rest := Collapsed(s[1..], true, false);
        NormalFormKeepsSteady(s[1..], Advance(m, s[0]), s[0], true, false);
        assert ([s[0]] + rest)[1..] == rest;
        if started && gap {
          WhiteKeepsMode(m, ' ');
          assert (" " + [s[0]] + rest)[1..] == [s[0]] + rest;
        }
      }
    }
  }

  lemma {:induction false} SteadyNormalFormMeansSteadyText(s: string, m: Mode, started: bool, gap: bool)
    requires Reachable(m) && (!started ==> !m.Escape?)
    requires Steady(Collapsed(s, started, gap), m) && !FinalMode(Collapsed(s, started, gap), m).Escape?
    ensures Steady(s, m) && (gap ==> !m.Escape?)
    decreases |s|
  {
    if s != "" {
      if IsWhite(s[0]) {
        SteadyNormalFormMeansSteadyText(s[1..], m, started, true);
        WhiteKeepsMode(m, s[0]);
      } else {
        var rest, out := Collapsed(s[1..], true, false), Collapsed(s, started, gap);
        if started && gap {
          assert out[0] == ' ' && out[1..] == [s[0]] + rest;
          WhiteKeepsMode(m, ' ');
        }
        assert ([s[0]] + rest)[1..] == rest;
        SteadyNormalFormMeansSteadyText(s[1..], Advance(m, s[0]), true, false);
      }
    }
  }

  lemma {:induction false} CleanIsSteady(s: string, m: Mode)
    requires Clean(s, m)
    ensures Steady(s, m)
  {
    if s != "" { CleanIsSteady(s[1..], Advance(m, s[0])); }
  }

  // ---------------------------------------------------------------- soundness

  lemma {:induction false} CleanTextKeepsProgram(s: string, m: Mode, started: bool, gap: bool)
    requires Clean(s, m)
    ensures Collapsed(s, started, gap) == Scanned(s, m, started, gap)
    decreases |s|
  {
    if s != "" {
      if IsWhite(s[0]) {
        CleanTextKeepsProgram(s[1..], m, started, true);
      } else {
        CleanTextKeepsProgram(s[1..], Advance(m, s[0]), true, false);
      }
    }
  }

  lemma {:induction false} NormalFormStaysClean(s: string, m: Mode, started: bool, gap: bool)
    requires Clean(s, m) && (gap ==> m == Code)
    ensures Clean(Collapsed(s, started, gap), m)
    ensures FinalMode(Collapsed(s, started, gap), m) == FinalMode(s, m)
    decreases |s|
  {
    if s != "" {
      if IsWhite(s[0]) {
        NormalFormStaysClean(s[1..], m, started, true);
      } else {
        var rest := Collapsed(s[1..], true, false);
        NormalFormStaysClean(s[1..], Advance(m, s[0]), true, false);
        assert ([s[0]] + rest)[1..] == rest;
        if started && gap {
          assert (" " + [s[0]] + rest)[1..] == [s[0]] + rest;
        }
      }
    }
  }

  /** A clean, terminated normal form can only come from a clean text. */
  lemma {:induction false} CleanNormalFormMeansCleanText(s: string, m: Mode, started: bool, gap: bool)
    requires !started ==> m == Code
    requires Clean(Collapsed(s, started, gap), m) && FinalMode(Collapsed(s, started, gap), m) == Code
    ensures Clean(s, m) && (gap ==> m == Code)
    decreases |s|
  {
    if s != "" {
      if IsWhite(s[0]) {
        CleanNormalFormMeansCleanText(s[1..], m, started, true);
      } else {
        var rest := Collapsed(s[1..], true, false);
        var out := Collapsed(s, started, gap);
        if started && gap {
          assert out[0] == ' ' && out[1..] == [s[0]] + rest;
        }
        assert ([s[0]] + rest)[1..] == rest;
        CleanNormalFormMeansCleanText(s[1..], Advance(m, s[0]), true, false);
      }
    }
  }

  /** Equal normal forms are the same program when the required text is clean and plain. */
  lemma NormalizedEqualityIsSound(required: string, actual: string)
    requires Clean(required, Code) && Terminated(required) && PlainText(required)
    requires Normalize(actual) == Normalize(required)
    ensures PlainText(actual) && Program(actual) == Program(required)
  {
    NormalizeIsCollapsed(required);
    NormalizeIsCollapsed(actual);
    NormalFormStaysClean(required, Code, false, false);
    CleanNormalFormMeansCleanText(actual, Code, false, false);
    CleanTextKeepsProgram(required, Code, false, false);
    CleanTextKeepsProgram(actual, Code, false, false);
    CleanIsSteady(required, Code);
    CleanIsSteady(actual, Code);
    NormalFormKeepsSteady(required, Code, ' ', false, false);
    NormalFormKeepsSteady(actual, Code, ' ', false, false);
    hide Normalize, Collapsed, Scanned, Clean, Steady, Plain;
  }

  // ---------------------------------------------------------------- and only then

  /** The text with one white-space character repeated. */
  function Doubled(s: string, i: nat): string
    requires i < |s|
  {
    s[..i] + [s[i]] + s[i..]
  }

  lemma {:induction false} DoublingKeepsNormalForm(s: string, i: nat, started: bool, gap: bool)
    requires i < |s| && IsWhite(s[i])
    ensures Collapsed(Doubled(s, i), started, gap) == Collapsed(s, started, gap)
    decreases i
  {
    var d := Doubled(s, i);
    if i == 0 {
      assert d[1..] == s;
      assert Collapsed(s, started, true) == Collapsed(s[1..], started, true);
    } else {
      assert d[0] == s[0] && d[1..] == Doubled(s[1..], i - 1);
      if IsWhite(s[0]) {
        DoublingKeepsNormalForm(s[1..], i - 1, started, true);
      } else {
        DoublingKeepsNormalForm(s[1..], i - 1, true, false);
      }
    }
  }

  function ModeAt(s: string, i: nat, m: Mode): Mode
    requires i <= |s|
  {
    if i == 0 then m else ModeAt(s[1..], i - 1, Advance(m, s[0]))
  }

  lemma ScannedLength(s: string, m: Mode, started: bool, gap: bool)
    requires s != ""
    ensures |Scanned(s, m, started, gap)| ==
            if IsWhite(s[0]) && m == Code then |Scanned(s[1..], m, started, true)|
            else (if started && gap then 2 else 1) + |Scanned(s[1..], Advance(m, s[0]), true, false)|
  {}

  lemma {:induction false} DoublingChangesProgram(s: string, i: nat, m: Mode, started: bool, gap: bool)
    requires i < |s| && IsWhite(s[i]) && ModeAt(s, i, m) != Code && Reachable(m)
    requires gap ==> m == Code
    ensures |Scanned(Doubled(s, i), m, started, gap)| == |Scanned(s, m, started, gap)| + 1
    decreases i
  {
    var d := Doubled(s, i);
    ScannedLength(s, m, started, gap);
    ScannedLength(d, m, started, gap);
    hide Scanned;
    if i == 0 {
      assert d[0] == s[0] && d[1..] == s;
      assert Advance(Advance(m, s[0]), s[0]) == Advance(m, s[0]);
      ScannedLength(s, Advance(m, s[0]), true, false);
    } else {
      assert d[0] == s[0] && d[1..] == Doubled(s[1..], i - 1);
      if IsWhite(s[0]) && m == Code {
        DoublingChangesProgram(s[1..], i - 1, m, started, true);
      } else {
        DoublingChangesProgram(s[1..], i - 1, Advance(m, s[0]), true, false);
      }
    }
  }

  lemma {:induction false} UncleanPosition(s: string, m: Mode) returns (i: nat)
    requires !Clean(s, m)
    ensures i < |s| && IsWhite(s[i]) && ModeAt(s, i, m) != Code
    decreases |s|
  {
    if IsWhite(s[0]) && m != Code {
      i := 0;
    } else {
      var k := UncleanPosition(s[1..], Advance(m, s[0]));
      i := k + 1;
    }
  }

  /** Startup's text comparison pins down the program of a plain text exactly when the text is clean. */
  lemma NormalizedEqualitySoundIffClean(required: string)
    requires Terminated(required) && PlainText(required)
    ensures Clean(required, Code) <==>
            forall actual :: Normalize(actual) == Normalize(required) ==>
              PlainText(actual) && Program(actual) == Program(required)
  {
    if Clean(required, Code) {
      forall actual | Normalize(actual) == Normalize(required)
        ensures PlainText(actual) && Program(actual) == Program(required)
      {
        NormalizedEqualityIsSound(required, actual);
      }
    } else {
      var i := UncleanPosition(required, Code);
      var actual := Doubled(required, i);
      DoublingKeepsNormalForm(required, i, false, false);
      NormalizeIsCollapsed(required);
      NormalizeIsCollapsed(actual);
      DoublingChangesProgram(required, i, Code, false, false);
      assert Normalize(actual) == Normalize(required) && Program(actual) != Program(required);
    }
  }

  // ---------------------------------------------------------------- names spliced into required texts

  function HexDigit(n: nat): char
    requires n < 16
  {
    "0123456789abcdef"[n]
  }

  /** One character as a JSON string literal holds it. */
  function Escaped(c: char): string {
    var n := c as int;
    if c == '"' || c == '\\' then ['\\', c]
    else if n == 8 then "\\b" else if n == 9 then "\\t" else if n == 10 then "\\n"
    else if n == 12 then "\\f" else if n == 13 then "\\r"
    else if n < 0x20 then "\\u00" + [HexDigit(n / 16), HexDigit(n % 16)]
    else [c]
  }

  function Body(name: string): string {
    if name == "" then "" else Escaped(name[0]) + Body(name[1..])
  }

  function Quoted(name: string): string { "\"" + Body(name) + "\"" }

  /** The code point of four hexadecimal digits. */
  function HexCode(s: string): Option<int>
    requires |s| == 4
  {
    if forall i :: 0 <= i < 4 ==> s[i] in "0123456789abcdef"
    then Some(HexDigitValue(s[0]) * 0x1000 + HexDigitValue(s[1]) * 0x100
              + HexDigitValue(s[2]) * 0x10 + HexDigitValue(s[3]))
    else None
  }

  function HexDigitValue(c: char): int { if c <= '9' then c as int - '0' as int else c as int - 'a' as int + 10 }

  /** What a character after a backslash stands for, in section 7 of RFC 8259. */
  function Unescaped(c: char): Option<char> {
    match c
    case '"' => Some('"')
    case '\\' => Some('\\')
    case '/' => Some('/')
    case 'b' => Some(8 as char)
    case 'f' => Some(12 as char)
    case 'n' => Some(10 as char)
    case 'r' => Some(13 as char)
    case 't' => Some(9 as char)
    case _ => None
  }

  /** The first character that the body of a JSON string stands for, and the rest of the body. Surrogate
      pairs, which quoting never writes, are left out. */
  function FirstDecoded(s: string): (r: Option<(char, string)>)
    requires s != ""
    ensures r.Some? ==> |r.value.1| < |s|
  {
    if s[0] != '\\' then if s[0] == '"' || s[0] < ' ' then None else Some((s[0], s[1..]))
    else if |s| >= 6 && s[1] == 'u' then
      var code := HexCode(s[2..6]);
      if code.Some? && 0 <= code.value < 0xD800 then Some((code.value as char, s[6..])) else None
    else if |s| >= 2 && Unescaped(s[1]).Some? then Some((Unescaped(s[1]).value, s[2..]))
    else None
  }

  /** What the body of a JSON string stands for. */
  function Decoded(s: string): Option<string>
    decreases |s|
  {
    if s == "" then Some("")
    else
      var first := FirstDecoded(s);
      if first.None? then None
      else
        var rest := Decoded(first.value.1);
        if rest.Some? then Some([first.value.0] + rest.value) else None
  }

  lemma PlainDecodes(c: char, rest: string)
    requires c >= ' ' && c != '"' && c != '\\'
    ensures FirstDecoded([c] + rest) == Some((c, rest))
  {
    var s := [c] + rest;
    assert s[0] == c && s[1..] == rest;
  }

  lemma PairDecodes(mark: char, c: char, rest: string)
    requires mark != 'u' && Unescaped(mark) == Some(c)
    ensures FirstDecoded(['\\', mark] + rest) == Some((c, rest))
  {
    hide Unescaped, HexCode;
    var s := ['\\', mark] + rest;
    assert s[0] == '\\' && s[1] == mark && s[2..] == rest;
  }

  lemma UnicodeDecodes(n: nat, rest: string)
    requires n < 0x20
    ensures FirstDecoded("\\u00" + [HexDigit(n / 16), HexDigit(n % 16)] + rest) == Some((n as char, rest))
  {
    hide HexCode, HexDigit, Unescaped;
    ControlDecodes(n);
    var e := "\\u00" + [HexDigit(n / 16), HexDigit(n % 16)];
    var s := e + rest;
    assert s[0] == '\\' && s[1] == 'u' && s[6..] == rest;
    assert s[2..6] == "00" + [HexDigit(n / 16), HexDigit(n % 16)];
  }

  lemma EscapedDecodes(c: char, rest: string)
    ensures Escaped(c) + rest != "" && FirstDecoded(Escaped(c) + rest) == Some((c, rest))
  {
    hide FirstDecoded, HexDigit;
    var n := c as int;
    if c == '"' || c == '\\' {
      PairDecodes(c, c, rest);
    } else if n == 8 {
      PairDecodes('b', c, rest);
    } else if n == 9 {
      PairDecodes('t', c, rest);
    } else if n == 10 {
      PairDecodes('n', c, rest);
    } else if n == 12 {
      PairDecodes('f', c, rest);
    } else if n == 13 {
      PairDecodes('r', c, rest);
    } else if n < 0x20 {
      UnicodeDecodes(n, rest);
    } else {
      PlainDecodes(c, rest);
    }
  }

  lemma ControlDecodes(n: nat)
    requires n < 0x20
    ensures HexCode("00" + [HexDigit(n / 16), HexDigit(n % 16)]) == Some(n)
  {
    HexDigitDecodes(0);
    assert HexDigit(0) == '0';
    hide HexDigit, HexDigitValue;
    HexDigitDecodes(n / 16);
    HexDigitDecodes(n % 16);
    var s := "00" + [HexDigit(n / 16), HexDigit(n % 16)];
    assert s[0] == '0' && s[1] == '0' && s[2] == HexDigit(n / 16) && s[3] == HexDigit(n % 16);
    FourDigits(s);
  }

  lemma FourDigits(s: string)
    requires |s| == 4
    requires s[0] in "0123456789abcdef" && s[1] in "0123456789abcdef"
    requires s[2] in "0123456789abcdef" && s[3] in "0123456789abcdef"
    ensures HexCode(s) == Some(HexDigitValue(s[0]) * 0x1000 + HexDigitValue(s[1]) * 0x100
                               + HexDigitValue(s[2]) * 0x10 + HexDigitValue(s[3]))
  {
    hide HexDigitValue;
  }

  lemma HexDigitDecodes(n: nat)
    requires n < 16
    ensures HexDigit(n) in "0123456789abcdef" && HexDigitValue(HexDigit(n)) == n
  {}

  /** Quoting is undone by reading the literal as JSON: the name comes back, whatever it is. */
  lemma {:induction false} QuotedDecodes(name: string)
    ensures Decoded(Body(name)) == Some(name)
  {
    if name != "" {
      hide Escaped, FirstDecoded;
      EscapedDecodes(name[0], Body(name[1..]));
      QuotedDecodes(name[1..]);
      assert Body(name) == Escaped(name[0]) + Body(name[1..]) && name == [name[0]] + name[1..];
    }
  }

  /** White space that a JSON literal holds as it is. */
  predicate RawWhite(c: char) { IsWhite(c) && c as int >= 0x20 }

  predicate NoRawWhite(name: string) { forall i :: 0 <= i < |name| ==> !RawWhite(name[i]) }

  function LastOf(s: string, last: char): char { if s == "" then last else Seen(s[|s| - 1]) }

  lemma {:induction false} ScanAppend(a: string, b: string, m: Mode, last: char)
    ensures Clean(a + b, m) <==> Clean(a, m) && Clean(b, FinalMode(a, m))
    ensures Plain(a + b, m, last) <==> Plain(a, m, last) && Plain(b, FinalMode(a, m), LastOf(a, last))
    ensures Skippable(a + b, m) <==> Skippable(a, m) && Skippable(b, FinalMode(a, m))
    ensures FinalMode(a + b, m) == FinalMode(b, FinalMode(a, m))
    decreases |a|
  {
    if a == "" {
      assert a + b == b;
    } else {
      assert (a + b)[1..] == a[1..] + b;
      ScanAppend(a[1..], b, Advance(m, a[0]), Seen(a[0]));
      assert LastOf(a[1..], Seen(a[0])) == LastOf(a, last);
    }
  }

  predicate Tame(c: char) { !IsWhite(c) && c != '\\' && !Quote(c) }

  /** Tame characters leave a literal open and the scanner where it was. */
  lemma {:induction false} TameStaysInside(s: string, q: char, last: char)
    requires Quote(q) && forall i :: 0 <= i < |s| ==> Tame(s[i])
    ensures Clean(s, Inside(q)) && Plain(s, Inside(q), last) && Skippable(s, Inside(q))
        && FinalMode(s, Inside(q)) == Inside(q)
  {
    if s != "" { TameStaysInside(s[1..], q, Seen(s[0])); }
  }

  lemma EscapeStaysInside(c: char, last: char)
    ensures FinalMode(Escaped(c), Inside('"')) == Inside('"')
    ensures Plain(Escaped(c), Inside('"'), last) && Skippable(Escaped(c), Inside('"'))
    ensures Clean(Escaped(c), Inside('"')) <==> !RawWhite(c)
  {
    var e := Escaped(c);
    if |e| > 1 {
      assert !IsWhite(e[1]);
      forall i | 0 <= i < |e[2..]| ensures Tame(e[2..][i]) {}
      TameStaysInside(e[2..], '"', Seen(e[1]));
      assert e[1..][1..] == e[2..];
    }
  }

  lemma {:induction false} BodyStaysInside(name: string, last: char)
    ensures FinalMode(Body(name), Inside('"')) == Inside('"')
    ensures Plain(Body(name), Inside('"'), last) && Skippable(Body(name), Inside('"'))
    ensures Clean(Body(name), Inside('"')) <==> NoRawWhite(name)
  {
    if name != "" {
      hide Escaped;
      EscapeStaysInside(name[0], last);
      BodyStaysInside(name[1..], LastOf(Escaped(name[0]), last));
      ScanAppend(Escaped(name[0]), Body(name[1..]), Inside('"'), last);
      assert NoRawWhite(name) <==> !RawWhite(name[0]) && NoRawWhite(name[1..]);
    }
  }

  /** Whatever the name, quoting it makes one closed literal, plain unless it follows a prefix. */
  lemma QuotedIsOneLiteral(name: string, last: char)
    ensures Terminated(Quoted(name)) && Skippable(Quoted(name), Code)
    ensures Plain(Quoted(name), Code, last) <==> !Exotic(last, '"')
    ensures Clean(Quoted(name), Code) <==> NoRawWhite(name)
  {
    BodyStaysInside(name, '"');
    ScanAppend(Body(name), "\"", Inside('"'), '"');
    assert Quoted(name)[1..] == Body(name) + "\"";
  }

  // ---------------------------------------------------------------- names that read alike

  lemma {:induction false} BodyAppend(a: string, b: string)
    ensures Body(a + b) == Body(a) + Body(b)
    decreases |a|
  {
    if a == "" {
      assert a + b == b;
    } else {
      hide Escaped;
      assert (a + b)[1..] == a[1..] + b;
      BodyAppend(a[1..], b);
    }
  }

  lemma BodyOfRaw(a: string, c: char, b: string)
    requires RawWhite(c)
    ensures Body(a + ([c] + b)) == Body(a) + ([c] + Body(b))
  {
    BodyAppend(a, [c] + b);
    assert ([c] + b)[1..] == b && Escaped(c) == [c];
  }

  lemma DoubledInside(pre: string, c: char, post: string)
    ensures Doubled(pre + ([c] + post), |pre|) == pre + ([c] + ([c] + post))
  {}

  lemma QuotedDoubled(name: string, i: nat) returns (j: nat)
    requires i < |name| && RawWhite(name[i])
    ensures j < |Quoted(name)| && Quoted(name)[j] == name[i] && Quoted(Doubled(name, i)) == Doubled(Quoted(name), j)
  {
    hide Body, RawWhite;
    var a, c, b := name[..i], name[i], name[i + 1..];
    assert name == a + ([c] + b) && Doubled(name, i) == a + ([c] + ([c] + b));
    BodyOfRaw(a, c, b);
    BodyOfRaw(a, c, [c] + b);
    BodyOfRaw("", c, b);
    assert "" + ([c] + b) == [c] + b && Body("") + ([c] + Body(b)) == [c] + Body(b) by { EmptyBody(); }
    var pre, post := "\"" + Body(a), Body(b) + "\"";
    DoubledInside(pre, c, post);
    assert Quoted(name) == pre + ([c] + post);
    assert Quoted(Doubled(name, i)) == pre + ([c] + ([c] + post));
    j := |pre|;
  }

  lemma EmptyBody()
    ensures Body("") == ""
  {}

  lemma DoubledBetween(pre: string, s: string, post: string, j: nat)
    requires j < |s|
    ensures pre + (Doubled(s, j) + post) == Doubled(pre + (s + post), |pre| + j)
  {}

  /** Repeating raw white space in a name goes unnoticed in any text around it. */
  lemma DoubledNameReadsAlike(pre: string, name: string, i: nat, post: string)
    requires i < |name| && RawWhite(name[i])
    ensures Normalize(pre + (Quoted(Doubled(name, i)) + post)) == Normalize(pre + (Quoted(name) + post))
  {
    var j := QuotedDoubled(name, i);
    hide Quoted, Doubled, Normalize, Collapsed;
    var text := pre + (Quoted(name) + post);
    DoubledBetween(pre, Quoted(name), post, j);
    assert text[|pre| + j] == name[i];
    NormalizeIsCollapsed(text);
    NormalizeIsCollapsed(Doubled(text, |pre| + j));
    DoublingKeepsNormalForm(text, |pre| + j, false, false);
  }

  // ---------------------------------------------------------------- why plain texts

  lemma {:induction false} SameTailSameNormalForm(a: string, b: string, c: string, started: bool, gap: bool)
    requires forall st, g :: Collapsed(b, st, g) == Collapsed(c, st, g)
    ensures Collapsed(a + b, started, gap) == Collapsed(a + c, started, gap)
    decreases |a|
  {
    if a == "" {
      assert a + b == b && a + c == c;
    } else {
      assert (a + b)[1..] == a[1..] + b && (a + c)[1..] == a[1..] + c;
      if IsWhite(a[0]) {
        SameTailSameNormalForm(a[1..], b, c, started, true);
      } else {
        SameTailSameNormalForm(a[1..], b, c, true, false);
      }
    }
  }

  /** Normalisation loses the line break that ends a comment, and such texts are not plain: behind
      `//` the comparison would not tell code from comment. */
  lemma CommentsAreNotPlain(pre: string, post: string)
    requires Terminated(pre)
    ensures Normalize(pre + ("//" + ("\n" + post))) == Normalize(pre + ("//" + (" " + post)))
    ensures !PlainText(pre + ("//" + post))
  {
    var b, c := "\n" + post, " " + post;
    assert b[1..] == post && c[1..] == post;
    SameTailSameNormalForm("//", b, c, false, false);
    assert forall st, g :: Collapsed("//" + b, st, g) == Collapsed("//" + c, st, g) by {
      forall st, g ensures Collapsed("//" + b, st, g) == Collapsed("//" + c, st, g) {
        SameTailSameNormalForm("//", b, c, st, g);
      }
    }
    SameTailSameNormalForm(pre, "//" + b, "//" + c, false, false);
    NormalizeIsCollapsed(pre + ("//" + b));
    NormalizeIsCollapsed(pre + ("//" + c));
    ScanAppend(pre, "//" + post, Code, ' ');
    assert ("//" + post)[1..] == "/" + post;
    hide Collapsed, Normalize;
  }
}

/** The string helpers of the bot: `capitalize`, `truncate`, `normalizeWhitespace`
    and `isEmpty`, with the JavaScript string primitives they are built from
    (`trim`, `slice`, the `\s` character class, ASCII case mapping). */
module StringUtils {

  // ---------------------------------------------------------------------------
  // Characters
  // ---------------------------------------------------------------------------

  /** The characters JavaScript's `trim` removes and its `\s` class matches:
      the WhiteSpace and LineTerminator characters of ECMAScript. */
  predicate IsSpace(c: char) {
    c == ' ' || ('\t' <= c <= '\r') || (c >= '\U{00A0}' && IsUnicodeSpace(c))
  }

  /** The whitespace characters beyond ASCII: no-break space, the Unicode space
      separators, the line and paragraph separators and the byte order mark.
      ('\t' to '\r' above are tab, line feed, vertical tab, form feed and
      carriage return.) */
  predicate IsUnicodeSpace(c: char) {
    || c == '\U{00A0}' || c == '\U{1680}'
    || ('\U{2000}' <= c <= '\U{200A}')
    || c == '\U{2028}' || c == '\U{2029}'
    || c == '\U{202F}' || c == '\U{205F}' || c == '\U{3000}' || c == '\U{FEFF}'
  }

  /** Every character of `s` is whitespace (vacuously true of ""). */
  predicate AllSpace(s: string) {
    forall i :: 0 <= i < |s| ==> IsSpace(s[i])
  }

  predicate IsUpperLetter(c: char) { 'A' <= c <= 'Z' }

  predicate IsLowerLetter(c: char) { 'a' <= c <= 'z' }

  /** `toUpperCase` on one character, restricted to ASCII letters. */
  function ToUpper(c: char): (u: char)
    ensures !IsLowerLetter(u)
    ensures IsLowerLetter(c) ==> IsUpperLetter(u)
    ensures !IsLowerLetter(c) ==> u == c
  {
    if IsLowerLetter(c) then (c as int - 32) as char else c
  }

  /** `toLowerCase` on one character, restricted to ASCII letters. */
  function ToLower(c: char): (l: char)
    ensures !IsUpperLetter(l)
    ensures IsUpperLetter(c) ==> IsLowerLetter(l)
    ensures !IsUpperLetter(c) ==> l == c
  {
    if IsUpperLetter(c) then (c as int + 32) as char else c
  }

  /** Upper- and lower-casing are inverse on letters: a letter mapped to the
      other case and back is the letter itself. */
  lemma {:induction false} CaseRoundTrip(c: char)
    ensures IsLowerLetter(c) ==> IsUpperLetter(ToUpper(c)) && ToLower(ToUpper(c)) == c
    ensures IsUpperLetter(c) ==> IsLowerLetter(ToLower(c)) && ToUpper(ToLower(c)) == c
  {
  }

  /** The two halves of the ASCII alphabet, letter by letter. */
  const LowerAlphabet: string := "abcdefghijklmnopqrstuvwxyz"
  const UpperAlphabet: string := "ABCDEFGHIJKLMNOPQRSTUVWXYZ"

  /** Each letter is mapped to its own counterpart: the k-th lower-case letter
      of the alphabet to the k-th upper-case one, and back. */
  lemma {:induction false} CaseCounterpart(c: char)
    ensures IsLowerLetter(c) ==> ToUpper(c) == UpperAlphabet[c as int - 'a' as int]
    ensures IsUpperLetter(c) ==> ToLower(c) == LowerAlphabet[c as int - 'A' as int]
  {
    if IsLowerLetter(c) {
      AlphabetAt(c as int - 'a' as int);
    } else if IsUpperLetter(c) {
      AlphabetAt(c as int - 'A' as int);
    }
  }

  lemma {:induction false} AlphabetAt(k: int)
    requires 0 <= k < 26
    ensures |LowerAlphabet| == |UpperAlphabet| == 26
    ensures LowerAlphabet[k] as int == 'a' as int + k
    ensures UpperAlphabet[k] as int == 'A' as int + k
  {
  }

  /** `toLowerCase` on a whole string. */
  function LowerCase(s: string): (r: string)
    ensures |r| == |s|
    ensures forall i :: 0 <= i < |s| ==> r[i] == ToLower(s[i])
  {
    seq(|s|, i requires 0 <= i < |s| => ToLower(s[i]))
  }

  function Min(a: int, b: int): int { if a <= b then a else b }

  function Max(a: int, b: int): int { if a <= b then b else a }

  // ---------------------------------------------------------------------------
  // capitalize
  // ---------------------------------------------------------------------------

  /** A string in the form `capitalize` produces: its first character is not a
      lower-case letter and no later character is an upper-case letter. */
  predicate IsCapitalized(s: string) {
    && (s == [] || !IsLowerLetter(s[0]))
    && forall i :: 1 <= i < |s| ==> !IsUpperLetter(s[i])
  }

  /** `capitalize(str)`: "" stays "", otherwise the first character is upper-cased
      and the rest lower-cased. */
  function Capitalize(s: string): (r: string)
    ensures |r| == |s|
    ensures s != [] ==> r[0] == ToUpper(s[0])
    ensures forall i :: 1 <= i < |s| ==> r[i] == ToLower(s[i])
    ensures s != [] && !IsLowerLetter(s[0]) ==> r[0] == s[0]
    ensures IsCapitalized(r)
  {
    if s == [] then s else [ToUpper(s[0])] + LowerCase(s[1..])
  }

  /** `capitalize` leaves a string alone exactly when it is already capitalized. */
  lemma {:induction false} CapitalizeFixedPoint(s: string)
    ensures Capitalize(s) == s <==> IsCapitalized(s)
  {
    if IsCapitalized(s) {
      var r := Capitalize(s);
      assert forall i | 0 <= i < |s| :: r[i] == s[i];
    }
  }

  /** Applying `capitalize` twice gives what applying it once gives. */
  lemma {:induction false} CapitalizeIdempotent(s: string)
    ensures Capitalize(Capitalize(s)) == Capitalize(s)
  {
    CapitalizeFixedPoint(Capitalize(s));
  }

  /** The case of the input's letters does not matter: two strings equal up to
      ASCII case capitalize to the same string. */
  lemma {:induction false} CapitalizeIgnoresCase(s: string, t: string)
    requires LowerCase(s) == LowerCase(t)
    ensures Capitalize(s) == Capitalize(t)
  {
    if s != [] {
      assert ToLower(s[0]) == LowerCase(s)[0] == LowerCase(t)[0] == ToLower(t[0]);
      var a, b := Capitalize(s), Capitalize(t);
      forall i | 1 <= i < |s| ensures a[i] == b[i] {
        assert LowerCase(s)[i] == LowerCase(t)[i];
      }
    }
  }

  lemma {:induction false} CapitalizeExampleLower()
    ensures Capitalize("hello world") == "Hello world"
  {
    var s, r := "hello world", "Hello world";
    LowerCaseExample(s[1..], r);
    CapitalizeSplit(s, r);
  }

  lemma {:induction false} CapitalizeExampleUpper()
    ensures Capitalize("HELLO WORLD") == "Hello world"
  {
    var s, r := "HELLO WORLD", "Hello world";
    LowerCaseExample(s[1..], r);
    CapitalizeSplit(s, r);
  }

  lemma {:induction false} CapitalizeExampleMixed()
    ensures Capitalize("hELLo WoRLD") == "Hello world"
  {
    var s, r := "hELLo WoRLD", "Hello world";
    LowerCaseExample(s[1..], r);
    CapitalizeSplit(s, r);
  }

  lemma {:induction false} LowerCaseExample(t: string, r: string)
    requires t == "ello world" || t == "ELLO WORLD" || t == "ELLo WoRLD"
    requires r == "Hello world"
    ensures LowerCase(t) == r[1..]
  {
  }

  /** `capitalize` gives `r` when `r` starts with the first character of `s`
      upper-cased and goes on with the rest of `s` lower-cased. */
  lemma {:induction false} CapitalizeSplit(s: string, r: string)
    requires s != [] && r != [] && ToUpper(s[0]) == r[0] && LowerCase(s[1..]) == r[1..]
    ensures Capitalize(s) == r
  {
    assert r == [r[0]] + r[1..];
  }

  lemma {:induction false} CapitalizeExampleShort()
    ensures Capitalize("a") == "A" && Capitalize("Z") == "Z"
    ensures Capitalize("") == ""
  {
    assert LowerCase([]) == [];
  }

  lemma {:induction false} CapitalizeExampleDigits()
    ensures Capitalize("123hello") == "123hello"
  {
    var s := "123hello";
    assert LowerCase(s[1..]) == s[1..];
  }

  lemma {:induction false} CapitalizeExampleSymbol()
    ensures Capitalize("!hello") == "!hello"
  {
    var s := "!hello";
    assert LowerCase(s[1..]) == s[1..];
  }

  // ---------------------------------------------------------------------------
  // truncate
  // ---------------------------------------------------------------------------

  /** How `String.prototype.slice` reads one of its indices for a string of
      length `len`: a negative index counts back from the end, and the result is
      clamped to `[0, len]`. */
  function SliceIndex(i: int, len: nat): (k: nat)
    ensures k <= len
    ensures 0 <= i ==> k == Min(i, len)
    ensures i < 0 ==> k == Max(0, len + i)
  {
    if i < 0 then (if len + i < 0 then 0 else len + i)
    else if i < len then i else len
  }

  /** `s.slice(start, end)`: empty when the normalised start is not before the
      normalised end. */
  function Slice(s: string, start: int, end: int): (r: string)
    ensures SliceIndex(start, |s|) <= SliceIndex(end, |s|) ==> r == s[SliceIndex(start, |s|)..SliceIndex(end, |s|)]
    ensures SliceIndex(end, |s|) < SliceIndex(start, |s|) ==> r == []
  {
    var a, b := SliceIndex(start, |s|), SliceIndex(end, |s|);
    if a <= b then s[a..b] else []
  }

  const Ellipsis: string := "..."

  /** `truncate(str, maxLength)`: the string itself when it fits, otherwise
      `str.slice(0, maxLength - 3)` followed by "...". A `maxLength` below 3
      makes the slice end negative, which `slice` counts from the end of `str`. */
  function Truncate(s: string, maxLength: int): (r: string)
    ensures |s| <= maxLength ==> r == s
    ensures 3 <= maxLength < |s| ==> r == s[..maxLength - 3] + Ellipsis && |r| == maxLength
    ensures maxLength < |s| && maxLength < 3 ==> r == s[..Max(0, |s| + maxLength - 3)] + Ellipsis
  {
    if |s| <= maxLength then s else Slice(s, 0, maxLength - 3) + Ellipsis
  }

  /** With a limit of at least 3 the result never exceeds the limit, and it is
      either the input or a proper prefix of the input followed by "...". */
  lemma {:induction false} TruncateFits(s: string, maxLength: int)
    requires 3 <= maxLength
    ensures |Truncate(s, maxLength)| <= maxLength
    ensures Truncate(s, maxLength) == s || exists k :: 0 <= k < |s| && Truncate(s, maxLength) == s[..k] + Ellipsis
  {
    if maxLength < |s| {
      assert Truncate(s, maxLength) == s[..maxLength - 3] + Ellipsis;
    }
  }

  /** For a positive limit, `truncate` returns its input unchanged exactly when
      the input fits. */
  lemma {:induction false} TruncateUnchangedIff(s: string, maxLength: int)
    requires 1 <= maxLength
    ensures Truncate(s, maxLength) == s <==> |s| <= maxLength
  {
    if maxLength < |s| {
      assert |Truncate(s, maxLength)| != |s|;
    }
  }

  /** With a limit of at least 3, truncating again changes nothing. */
  lemma {:induction false} TruncateIdempotent(s: string, maxLength: int)
    requires 3 <= maxLength
    ensures Truncate(Truncate(s, maxLength), maxLength) == Truncate(s, maxLength)
  {
    TruncateFits(s, maxLength);
  }

  /** A limit below 3 is not honoured: the result always keeps the ellipsis and
      has length `max(3, |s| + maxLength)`, which is more than the limit. */
  lemma {:induction false} TruncateShortLimit(s: string, maxLength: int)
    requires maxLength < 3 && maxLength < |s|
    ensures |Truncate(s, maxLength)| == Max(3, |s| + maxLength) > maxLength
  {
  }

  lemma {:induction false} TruncateExampleLong()
    ensures Truncate("Hello World", 8) == "Hello..."
  {
    assert "Hello World"[..5] == "Hello";
  }

  lemma {:induction false} TruncateExampleFits()
    ensures Truncate("Hello", 10) == "Hello"
    ensures Truncate("Hello", 5) == "Hello"
    ensures Truncate("", 5) == ""
  {
  }

  lemma {:induction false} TruncateExampleTiny()
    ensures Truncate("Hello World", 3) == "..."
    ensures Truncate("Hello World", 4) == "H..."
  {
    assert "Hello World"[..1] == "H";
  }

  lemma {:induction false} TruncateExampleZero()
    ensures Truncate("Hello", 0) == "He..."
  {
    assert "Hello"[..2] == "He";
  }

  // ---------------------------------------------------------------------------
  // trim
  // ---------------------------------------------------------------------------

  /** Removes the leading whitespace of `s`. */
  function TrimStart(s: string): (r: string)
    ensures |r| <= |s| && r == s[|s| - |r|..]
    ensures forall i :: 0 <= i < |s| - |r| ==> IsSpace(s[i])
    ensures r != [] ==> !IsSpace(r[0])
    ensures s != [] && IsSpace(s[0]) ==> |r| < |s|
    decreases |s|
  {
    if s != [] && IsSpace(s[0]) then
      var r := TrimStart(s[1..]);
      assert r == s[|s| - |r|..] by {
        assert s[1..][|s| - 1 - |r|..] == s[|s| - |r|..];
      }
      assert forall i :: 1 <= i < |s| - |r| ==> s[i] == s[1..][i - 1];
      r
    else
      s
  }

  /** Removes the trailing whitespace of `s`. */
  function TrimEnd(s: string): (r: string)
    ensures |r| <= |s| && r == s[..|r|]
    ensures forall i :: |r| <= i < |s| ==> IsSpace(s[i])
    ensures r != [] ==> !IsSpace(r[|r| - 1])
    decreases |s|
  {
    if s != [] && IsSpace(s[|s| - 1]) then
      var r := TrimEnd(s[..|s| - 1]);
      assert r == s[..|r|] by {
        assert s[..|s| - 1][..|r|] == s[..|r|];
      }
      assert forall i :: |r| <= i < |s| - 1 ==> s[i] == s[..|s| - 1][i];
      r
    else
      s
  }

  /** `s.trim()`: `s` without its leading and trailing whitespace. */
  function Trim(s: string): (r: string)
    ensures r != [] ==> !IsSpace(r[0]) && !IsSpace(r[|r| - 1])
    ensures r == [] <==> AllSpace(s)
  {
    var t := TrimStart(s);
    var r := TrimEnd(t);
    TrimParts(s, t, r);
    r
  }

  /** `trim` keeps a contiguous middle of `s` and removes only whitespace
      around it. */
  lemma {:induction false} TrimIsInfix(s: string)
    ensures var r := Trim(s);
      exists k :: 0 <= k <= |s| - |r| && r == s[k..k + |r|] && AllSpace(s[..k]) && AllSpace(s[k + |r|..])
  {
    TrimParts(s, TrimStart(s), Trim(s));
  }

  /** What `Trim` needs about cutting `s` into a whitespace prefix, the trimmed
      middle `r` and a whitespace suffix. */
  lemma {:induction false} TrimParts(s: string, t: string, r: string)
    requires |t| <= |s| && t == s[|s| - |t|..] && forall i :: 0 <= i < |s| - |t| ==> IsSpace(s[i])
    requires |r| <= |t| && r == t[..|r|] && forall i :: |r| <= i < |t| ==> IsSpace(t[i])
    requires r != [] ==> !IsSpace(r[0])
    ensures r == [] <==> AllSpace(s)
    ensures exists k :: 0 <= k <= |s| - |r| && r == s[k..k + |r|] && AllSpace(s[..k]) && AllSpace(s[k + |r|..])
  {
    var k := |s| - |t|;
    assert forall i :: k <= i < |s| ==> s[i] == t[i - k];
    if r == [] {
      assert forall i :: 0 <= i < |s| ==> IsSpace(s[i]);
    } else {
      assert s[k] == r[0];
    }
    assert r == s[k..k + |r|] && AllSpace(s[..k]) && AllSpace(s[k + |r|..]);
  }

  // ---------------------------------------------------------------------------
  // isEmpty
  // ---------------------------------------------------------------------------

  /** `isEmpty(str)`: `!str || str.trim().length === 0`, which holds exactly when
      every character of `str` is whitespace. */
  function IsEmpty(s: string): (r: bool)
    ensures r <==> AllSpace(s)
  {
    s == [] || |Trim(s)| == 0
  }

  lemma {:induction false} IsEmptyExampleNothing()
    ensures IsEmpty("")
  {
  }

  /** A text of plain spaces, tabs and line feeds is empty to `isEmpty`. */
  lemma {:induction false} AllSpaceIsEmpty(s: string)
    requires forall i :: 0 <= i < |s| ==> s[i] == ' ' || s[i] == '\t' || s[i] == '\n'
    ensures IsEmpty(s)
  {
    assert AllSpace(s);
  }

  lemma {:induction false} IsEmptyExampleSpaces()
    ensures IsEmpty("   ")
  {
    AllSpaceIsEmpty("   ");
  }

  lemma {:induction false} IsEmptyExampleControl()
    ensures IsEmpty("\t") && IsEmpty("\n")
  {
    assert AllSpace("\t") && AllSpace("\n");
  }

  lemma {:induction false} IsEmptyExampleMixed(s: string)
    requires s == "  \t\n  "
    ensures IsEmpty(s)
  {
    assert AllSpace(s);
  }

  lemma {:induction false} IsEmptyExampleText()
    ensures !IsEmpty("hello") && !IsEmpty("a")
    ensures !IsEmpty("!") && !IsEmpty("123")
  {
    assert !IsSpace("hello"[0]) && !IsSpace("a"[0]);
    assert !IsSpace("!"[0]) && !IsSpace("123"[0]);
  }

  lemma {:induction false} IsEmptyExamplePadded()
    ensures !IsEmpty(" hello ")
  {
    assert !IsSpace(" hello "[1]);
  }

  // ---------------------------------------------------------------------------
  // normalizeWhitespace
  // ---------------------------------------------------------------------------

  /** The form `normalizeWhitespace` produces: no whitespace at either end, every
      whitespace character is a plain space, and no two of them are adjacent. */
  predicate IsNormalized(s: string) {
    && (s != [] ==> !IsSpace(s[0]) && !IsSpace(s[|s| - 1]))
    && (forall i :: 0 <= i < |s| && IsSpace(s[i]) ==> s[i] == ' ')
    && (forall i :: 0 <= i < |s| - 1 && IsSpace(s[i]) ==> !IsSpace(s[i + 1]))
  }

  /** `s.replace(/\s+/g, ' ')`: each maximal run of whitespace becomes one space. */
  function CollapseSpaces(s: string): string
    decreases |s|
  {
    if s == [] then []
    else if IsSpace(s[0]) then [' '] + CollapseSpaces(TrimStart(s))
    else [s[0]] + CollapseSpaces(s[1..])
  }

  /** `r` is what the run replacement may make of `s`: the ends keep their kind
      (whitespace or not), and only plain spaces remain, never two in a row. */
  predicate CollapsedFrom(r: string, s: string) {
    && (r == [] <==> s == [])
    && (r != [] ==> (IsSpace(r[0]) <==> IsSpace(s[0])))
    && (r != [] ==> (IsSpace(r[|r| - 1]) <==> IsSpace(s[|s| - 1])))
    && (forall i :: 0 <= i < |r| && IsSpace(r[i]) ==> r[i] == ' ')
    && (forall i :: 0 <= i < |r| - 1 && IsSpace(r[i]) ==> !IsSpace(r[i + 1]))
  }

  lemma {:induction false} CollapseSpacesShape(s: string)
    ensures CollapsedFrom(CollapseSpaces(s), s)
    decreases |s|
  {
    if s != [] {
      if IsSpace(s[0]) {
        var t := TrimStart(s);
        CollapseSpacesShape(t);
        CollapsedAfterSpace(s, t, CollapseSpaces(t));
        assert CollapseSpaces(s) == [' '] + CollapseSpaces(t);
      } else {
        CollapseSpacesShape(s[1..]);
        CollapsedAfterWordChar(s, CollapseSpaces(s[1..]));
      }
    }
  }

  lemma {:induction false} CollapsedAfterSpace(s: string, t: string, rest: string)
    requires |t| < |s| && t == s[|s| - |t|..]
    requires forall i :: 0 <= i < |s| - |t| ==> IsSpace(s[i])
    requires t != [] ==> !IsSpace(t[0])
    requires CollapsedFrom(rest, t)
    ensures CollapsedFrom([' '] + rest, s)
  {
    var r := [' '] + rest;
    assert IsSpace(s[0]);
    assert forall i :: 1 <= i < |r| ==> r[i] == rest[i - 1];
    if rest == [] {
      assert IsSpace(s[|s| - 1]);
    } else {
      assert r[|r| - 1] == rest[|rest| - 1];
      assert t[|t| - 1] == s[|s| - 1];
      assert !IsSpace(r[1]);
    }
  }

  lemma {:induction false} CollapsedAfterWordChar(s: string, rest: string)
    requires s != [] && !IsSpace(s[0])
    requires CollapsedFrom(rest, s[1..])
    ensures CollapsedFrom([s[0]] + rest, s)
  {
    var r := [s[0]] + rest;
    assert rest != [] ==> s[1..][|s| - 2] == s[|s| - 1];
    assert forall i :: 1 <= i < |r| ==> r[i] == rest[i - 1];
  }

  /** `normalizeWhitespace(str)`: `str.trim().replace(/\s+/g, ' ')`. */
  function NormalizeWhitespace(s: string): (r: string)
    ensures IsNormalized(r)
    ensures r == [] <==> IsEmpty(s)
  {
    CollapseSpacesShape(Trim(s));
    CollapseSpaces(Trim(s))
  }

  /** Once `normalizeWhitespace` has run, running it again changes nothing. */
  lemma {:induction false} NormalizeUnchangedIff(s: string)
    ensures NormalizeWhitespace(s) == s <==> IsNormalized(s)
  {
    if IsNormalized(s) {
      assert TrimStart(s) == s;
      assert TrimEnd(s) == s;
      CollapseFixes(s);
    }
  }

  /** Applying `normalizeWhitespace` twice gives what applying it once gives. */
  lemma {:induction false} NormalizeIdempotent(s: string)
    ensures NormalizeWhitespace(NormalizeWhitespace(s)) == NormalizeWhitespace(s)
  {
    NormalizeUnchangedIff(NormalizeWhitespace(s));
  }

  /** A string whose whitespace is already single plain spaces is left alone by
      the run replacement. */
  lemma {:induction false} CollapseFixes(s: string)
    requires forall i :: 0 <= i < |s| && IsSpace(s[i]) ==> s[i] == ' '
    requires forall i :: 0 <= i < |s| - 1 && IsSpace(s[i]) ==> !IsSpace(s[i + 1])
    ensures CollapseSpaces(s) == s
    decreases |s|
  {
    if s != [] {
      if IsSpace(s[0]) {
        assert s[1..] == [] || !IsSpace(s[1..][0]);
        assert TrimStart(s[1..]) == s[1..];
      }
      CollapseFixes(s[1..]);
    }
  }

  // ---------------------------------------------------------------------------
  // normalizeWhitespace as "split into words, join with single spaces"
  // ---------------------------------------------------------------------------

  /** `s` holds no whitespace character. */
  predicate NoSpace(s: string) {
    forall i :: 0 <= i < |s| ==> !IsSpace(s[i])
  }

  /** The longest prefix of `s` without whitespace. */
  function LeadingWord(s: string): (w: string)
    ensures |w| <= |s| && w == s[..|w|] && NoSpace(w)
    ensures |w| < |s| ==> IsSpace(s[|w|])
    ensures s != [] && !IsSpace(s[0]) ==> w != []
    decreases |s|
  {
    if s == [] || IsSpace(s[0]) then [] else [s[0]] + LeadingWord(s[1..])
  }

  /** The words of `s`: its maximal runs of non-whitespace characters, in order. */
  function Words(s: string): seq<string>
    decreases |s|
  {
    var t := TrimStart(s);
    if t == [] then []
    else
      var w := LeadingWord(t);
      [w] + Words(t[|w|..])
  }

  /** Every word is non-empty and holds no whitespace. */
  lemma {:induction false} WordsAreWords(s: string)
    ensures forall w <- Words(s) :: w != [] && NoSpace(w)
    decreases |s|
  {
    var t := TrimStart(s);
    if t != [] {
      var rest := t[|LeadingWord(t)|..];
      WordsAreWords(rest);
      WordsAreWordsStep(s);
    }
  }

  lemma {:induction false} WordsAreWordsStep(s: string)
    requires TrimStart(s) != []
    requires var t := TrimStart(s); forall w <- Words(t[|LeadingWord(t)|..]) :: w != [] && NoSpace(w)
    ensures forall w <- Words(s) :: w != [] && NoSpace(w)
  {
    var t := TrimStart(s);
    var w := LeadingWord(t);
    assert Words(s) == [w] + Words(t[|w|..]);
    assert w != [] && NoSpace(w);
  }

  /** The words joined with one space between neighbours. */
  function JoinSpaces(ws: seq<string>): string
    decreases |ws|
  {
    if ws == [] then []
    else if |ws| == 1 then ws[0]
    else ws[0] + " " + JoinSpaces(ws[1..])
  }

  /** `normalizeWhitespace` is the same as splitting its input into words and
      joining them with single spaces. */
  lemma {:induction false} NormalizeJoinsWords(s: string)
    ensures NormalizeWhitespace(s) == JoinSpaces(Words(s))
  {
    CollapseTrimmed(Trim(s));
    WordsOfTrim(s);
  }

  /** Trimming does not change the words. */
  lemma {:induction false} WordsOfTrim(s: string)
    ensures Words(Trim(s)) == Words(s)
  {
    var t := TrimStart(s);
    var r := Trim(s);
    TrimEndTail(t);
    WordsTrimStart(s);
    WordsAppendSpace(r, t[|r|..]);
  }

  /** What `TrimEnd` removes is whitespace, and it removes it only from the end. */
  lemma {:induction false} TrimEndTail(t: string)
    ensures var r := TrimEnd(t); t == r + t[|r|..] && AllSpace(t[|r|..])
  {
    var r := TrimEnd(t);
    var tail := t[|r|..];
    assert t == r + tail by {
      TakeDrop(t, |r|);
    }
    forall i | 0 <= i < |tail| ensures IsSpace(tail[i]) {
      assert tail[i] == t[|r| + i];
    }
  }

  lemma {:induction false} TakeDrop(t: string, k: nat)
    requires k <= |t|
    ensures t == t[..k] + t[k..]
  {
  }

  lemma {:induction false} WordsTrimStart(s: string)
    ensures Words(TrimStart(s)) == Words(s)
  {
    var t := TrimStart(s);
    assert TrimStart(t) == t;
  }

  lemma {:induction false} AllSpaceTrimStart(s: string)
    requires AllSpace(s)
    ensures TrimStart(s) == []
  {
  }

  lemma {:induction false} TrimStartAppend(y: string, z: string)
    requires TrimStart(y) != []
    ensures TrimStart(y + z) == TrimStart(y) + z
    decreases |y|
  {
    assert (y + z)[0] == y[0];
    if IsSpace(y[0]) {
      calc {
        TrimStart(y + z);
        TrimStart((y + z)[1..]);
        { DropAppend(y, z, 1); }
        TrimStart(y[1..] + z);
        { TrimStartAppend(y[1..], z); }
        TrimStart(y[1..]) + z;
      }
    }
  }

  lemma {:induction false} LeadingWordAppend(t: string, z: string)
    requires z == [] || IsSpace(z[0])
    ensures LeadingWord(t + z) == LeadingWord(t)
    decreases |t|
  {
    if t == [] {
      assert t + z == z;
    } else {
      assert (t + z)[0] == t[0];
      assert (t + z)[1..] == t[1..] + z;
      LeadingWordAppend(t[1..], z);
    }
  }

  /** Trailing whitespace adds no word. */
  lemma {:induction false} WordsAppendSpace(y: string, sp: string)
    requires AllSpace(sp)
    ensures Words(y + sp) == Words(y)
    decreases |y|
  {
    var t := TrimStart(y);
    if t == [] {
      assert y[..|y|] == y;
      forall i | 0 <= i < |y + sp| ensures IsSpace((y + sp)[i]) {
        if i < |y| { assert (y + sp)[i] == y[i]; } else { assert (y + sp)[i] == sp[i - |y|]; }
      }
      AllSpaceTrimStart(y + sp);
    } else {
      TrimStartAppend(y, sp);
      var w := LeadingWord(t);
      LeadingWordAppend(t, sp);
      var t2 := TrimStart(y + sp);
      assert t2 == t + sp && t2 != [];
      assert Words(y + sp) == [w] + Words(t2[|w|..]);
      assert Words(y) == [w] + Words(t[|w|..]);
      DropAppend(t, sp, |w|);
      WordsAppendSpace(t[|w|..], sp);
    }
  }

  lemma {:induction false} AppendAssoc(a: string, b: string, c: string)
    ensures a + b + c == a + (b + c)
  {
  }

  lemma {:induction false} DropAppend(a: string, b: string, k: nat)
    requires k <= |a|
    ensures (a + b)[k..] == a[k..] + b
  {
    assert |(a + b)[k..]| == |a[k..] + b|;
    forall i | 0 <= i < |a[k..] + b| ensures (a + b)[k..][i] == (a[k..] + b)[i] {
      if i < |a| - k { assert (a + b)[k + i] == a[k + i]; }
    }
  }

  /** A word in front passes through the run replacement untouched. */
  lemma {:induction false} CollapseWordPrefix(w: string, y: string)
    requires NoSpace(w)
    ensures CollapseSpaces(w + y) == w + CollapseSpaces(y)
    decreases |w|
  {
    if w == [] {
      assert w + y == y;
    } else {
      assert (w + y)[0] == w[0];
      assert (w + y)[1..] == w[1..] + y;
      CollapseWordPrefix(w[1..], y);
    }
  }

  /** On a string with no whitespace at either end, the run replacement joins the
      words with single spaces. */
  lemma {:induction false} CollapseTrimmed(x: string)
    requires x != [] ==> !IsSpace(x[0]) && !IsSpace(x[|x| - 1])
    ensures CollapseSpaces(x) == JoinSpaces(Words(x))
    decreases |x|
  {
    if x != [] {
      var rest := x[|LeadingWord(x)|..];
      if rest == [] {
        CollapseOneWord(x);
      } else {
        var u := TrimStart(rest);
        NextWordStart(x);
        CollapseTrimmed(u);
        CollapseWordsStep(x);
      }
    }
  }

  /** A string that is one word is its own collapse and its own join. */
  lemma {:induction false} CollapseOneWord(x: string)
    requires x != [] && !IsSpace(x[0]) && x[|LeadingWord(x)|..] == []
    ensures CollapseSpaces(x) == JoinSpaces(Words(x))
  {
    var w := LeadingWord(x);
    var rest := x[|w|..];
    CollapseWordStep(x);
    assert CollapseSpaces(rest) == [] && Words(rest) == [];
    JoinLastWord(CollapseSpaces(x), Words(x), w, CollapseSpaces(rest), Words(rest));
  }

  /** After the first word of a string with no whitespace at either end, and
      after the whitespace that follows it, comes a shorter such string. */
  lemma {:induction false} NextWordStart(x: string)
    requires x != [] && !IsSpace(x[0]) && !IsSpace(x[|x| - 1])
    requires x[|LeadingWord(x)|..] != []
    ensures var u := TrimStart(x[|LeadingWord(x)|..]);
      u != [] && !IsSpace(u[0]) && !IsSpace(u[|u| - 1]) && |u| < |x|
  {
    CollapseWordStep(x);
    CollapseSpaceStep(x[|LeadingWord(x)|..]);
  }

  /** The inductive step: if the rest after the first word and its whitespace
      collapses to its join, so does the whole. */
  lemma {:induction false} CollapseWordsStep(x: string)
    requires x != [] && !IsSpace(x[0]) && !IsSpace(x[|x| - 1])
    requires x[|LeadingWord(x)|..] != []
    requires var u := TrimStart(x[|LeadingWord(x)|..]); CollapseSpaces(u) == JoinSpaces(Words(u))
    ensures CollapseSpaces(x) == JoinSpaces(Words(x))
  {
    var w := LeadingWord(x);
    var rest := x[|w|..];
    var u := TrimStart(rest);
    CollapseWordStep(x);
    CollapseSpaceStep(rest);
    JoinNextWord(CollapseSpaces(x), Words(x), w, CollapseSpaces(rest), Words(rest), CollapseSpaces(u));
  }

  /** The last word joins to itself. */
  lemma {:induction false} JoinLastWord(text: string, ws: seq<string>, w: string, tail: string, tailWords: seq<string>)
    requires text == w + tail && ws == [w] + tailWords && tail == [] && tailWords == []
    ensures text == JoinSpaces(ws)
  {
    assert ws == [w];
    assert text == w;
  }

  /** A word, one space and the joined remaining words join to the whole. */
  lemma {:induction false} JoinNextWord(text: string, ws: seq<string>, w: string, tail: string, tailWords: seq<string>, joined: string)
    requires text == w + tail && ws == [w] + tailWords && tail == [' '] + joined
    requires tailWords != [] && joined == JoinSpaces(tailWords)
    ensures text == JoinSpaces(ws)
  {
    JoinSpacesCons(w, tailWords);
  }

  /** A string that starts with a word: the word passes through the run
      replacement and is the first of the words. */
  lemma {:induction false} CollapseWordStep(x: string)
    requires x != [] && !IsSpace(x[0])
    ensures var w := LeadingWord(x); var rest := x[|w|..];
      && CollapseSpaces(x) == w + CollapseSpaces(rest)
      && Words(x) == [w] + Words(rest)
      && |rest| < |x|
      && (rest != [] ==> IsSpace(rest[0]) && rest[|rest| - 1] == x[|x| - 1])
  {
    var w := LeadingWord(x);
    var rest := x[|w|..];
    assert x == w + rest by {
      TakeDrop(x, |w|);
    }
    CollapseWordPrefix(w, rest);
    assert TrimStart(x) == x;
  }

  /** A string that starts with whitespace and ends with a word: the run becomes
      one space, and what follows it has the same words. */
  lemma {:induction false} CollapseSpaceStep(rest: string)
    requires rest != [] && IsSpace(rest[0]) && !IsSpace(rest[|rest| - 1])
    ensures var u := TrimStart(rest);
      && CollapseSpaces(rest) == [' '] + CollapseSpaces(u)
      && Words(rest) == Words(u)
      && u != [] && !IsSpace(u[0]) && !IsSpace(u[|u| - 1])
      && |u| < |rest|
      && Words(u) != []
  {
    var u := TrimStart(rest);
    assert u != [] && u[|u| - 1] == rest[|rest| - 1];
    WordsTrimStart(rest);
    assert TrimStart(u) == u;
  }

  lemma {:induction false} JoinSpacesCons(w: string, ws: seq<string>)
    requires ws != []
    ensures JoinSpaces([w] + ws) == w + ([' '] + JoinSpaces(ws))
  {
    assert ([w] + ws)[1..] == ws;
    assert w + " " + JoinSpaces(ws) == w + ([' '] + JoinSpaces(ws));
  }

  lemma {:induction false} TrimStartSpacePrefix(a: string, y: string)
    requires AllSpace(a)
    ensures TrimStart(a + y) == TrimStart(y)
    decreases |a|
  {
    if a == [] {
      assert a + y == y;
    } else {
      assert (a + y)[0] == a[0];
      assert (a + y)[1..] == a[1..] + y;
      TrimStartSpacePrefix(a[1..], y);
    }
  }

  lemma {:induction false} LeadingWordWhole(w: string)
    requires NoSpace(w)
    ensures LeadingWord(w) == w
    decreases |w|
  {
    if w != [] {
      LeadingWordWhole(w[1..]);
    }
  }

  /** A word followed by whitespace (or by nothing) is the first word. */
  lemma {:induction false} WordsCons(w: string, y: string)
    requires w != [] && NoSpace(w)
    requires y == [] || IsSpace(y[0])
    ensures Words(w + y) == [w] + Words(y)
  {
    assert (w + y)[0] == w[0];
    assert TrimStart(w + y) == w + y;
    LeadingWordWhole(w);
    LeadingWordAppend(w, y);
    assert (w + y)[|w|..] == y;
  }

  lemma {:induction false} WordsOuterSpace(a: string, x: string, b: string)
    requires AllSpace(a) && AllSpace(b)
    ensures Words(a + x + b) == Words(x)
  {
    AppendAssoc(a, x, b);
    TrimStartSpacePrefix(a, x + b);
    assert Words(a + (x + b)) == Words(x + b);
    WordsAppendSpace(x, b);
  }

  /** Whitespace before and after the text does not change the result. */
  lemma {:induction false} NormalizeIgnoresOuterSpace(a: string, x: string, b: string)
    requires AllSpace(a) && AllSpace(b)
    ensures NormalizeWhitespace(a + x + b) == NormalizeWhitespace(x)
  {
    NormalizeJoinsWords(a + x + b);
    NormalizeJoinsWords(x);
    WordsOuterSpace(a, x, b);
  }

  lemma {:induction false} WordsAfterSpace(sp: string, w: string)
    requires w != [] && NoSpace(w) && AllSpace(sp)
    ensures Words(sp + w) == [w]
  {
    WordsSpacePrefix(sp, w);
    WordsOfWord(w);
  }

  lemma {:induction false} WordsSpacePrefix(sp: string, y: string)
    requires AllSpace(sp)
    ensures Words(sp + y) == Words(y)
  {
    TrimStartSpacePrefix(sp, y);
  }

  lemma {:induction false} WordsOfWord(w: string)
    requires w != [] && NoSpace(w)
    ensures Words(w) == [w]
  {
    WordsCons(w, []);
    assert w + [] == w;
  }

  lemma {:induction false} WordsTwo(v: string, sp: string, w: string)
    requires v != [] && NoSpace(v) && w != [] && NoSpace(w)
    requires sp != [] && AllSpace(sp)
    ensures Words(v + sp + w) == [v, w]
  {
    WordsAfterSpace(sp, w);
    AppendAssoc(v, sp, w);
    WordsConsOne(v, sp + w, w);
  }

  lemma {:induction false} WordsConsOne(v: string, y: string, w: string)
    requires v != [] && NoSpace(v) && y != [] && IsSpace(y[0]) && Words(y) == [w]
    ensures Words(v + y) == [v, w]
  {
    WordsCons(v, y);
    PairList(v, w);
  }

  lemma {:induction false} PairList(v: string, w: string)
    ensures [v] + [w] == [v, w]
  {
  }

  /** Any run of whitespace between two words becomes exactly one space. */
  lemma {:induction false} NormalizeTwoWords(v: string, sp: string, w: string)
    requires v != [] && NoSpace(v) && w != [] && NoSpace(w)
    requires sp != [] && AllSpace(sp)
    ensures NormalizeWhitespace(v + sp + w) == v + " " + w
  {
    NormalizeJoinsWords(v + sp + w);
    WordsTwo(v, sp, w);
  }

  lemma {:induction false} NormalizeExampleOuter(s: string)
    requires s == "  hello world  "
    ensures NormalizeWhitespace(s) == "hello world"
  {
    var a, x, b := "  ", "hello world", "  ";
    OuterParts(s, a, x, b);
    NormalizeIgnoresOuterSpace(a, x, b);
    NormalizeExampleNormal(x);
  }

  lemma {:induction false} OuterParts(s: string, a: string, x: string, b: string)
    requires s == "  hello world  " && a == "  " && x == "hello world" && b == "  "
    ensures AllSpace(a) && AllSpace(b) && s == a + x + b
  {
  }

  lemma {:induction false} NormalizeExampleSpaces(s: string)
    requires s == "hello    world"
    ensures NormalizeWhitespace(s) == "hello world"
  {
    var v, sp, w := "hello", "    ", "world";
    HelloWorld(v, w);
    SpacesParts(s, v, sp, w);
    NormalizeTwoWords(v, sp, w);
  }

  lemma {:induction false} NormalizeExampleTabs(s: string)
    requires s == "hello\t\n  world"
    ensures NormalizeWhitespace(s) == "hello world"
  {
    var v, sp, w := "hello", "\t\n  ", "world";
    HelloWorld(v, w);
    TabsParts(s, v, sp, w);
    NormalizeTwoWords(v, sp, w);
  }

  lemma {:induction false} NormalizeExampleNormal(s: string)
    requires s == "hello world"
    ensures NormalizeWhitespace(s) == s
  {
    var v, sp, w := "hello", " ", "world";
    HelloWorld(v, w);
    NormalizeTwoWords(v, sp, w);
  }

  /** The two words of the examples above, and the text they make. */
  lemma {:induction false} HelloWorld(v: string, w: string)
    requires v == "hello" && w == "world"
    ensures v != [] && NoSpace(v) && w != [] && NoSpace(w)
    ensures v + " " + w == "hello world"
  {
  }

  lemma {:induction false} SpacesParts(s: string, v: string, sp: string, w: string)
    requires s == "hello    world" && v == "hello" && sp == "    " && w == "world"
    ensures sp != [] && AllSpace(sp) && s == v + sp + w
  {
  }

  lemma {:induction false} TabsParts(s: string, v: string, sp: string, w: string)
    requires s == "hello\t\n  world" && v == "hello" && sp == "\t\n  " && w == "world"
    ensures sp != [] && AllSpace(sp) && s == v + sp + w
  {
  }

  lemma {:induction false} NormalizeExampleBlank(s: string)
    requires s == "   \t\n  "
    ensures NormalizeWhitespace(s) == ""
  {
    AllSpaceIsEmpty(s);
  }

  lemma {:induction false} NormalizeExampleEmpty()
    ensures NormalizeWhitespace("") == ""
  {
  }
}

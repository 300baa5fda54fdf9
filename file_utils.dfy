/** The word-list loader: `getLines` as a function of the file's text,
    `randomFrom` as a choice driven by one value of `Math.random()`, and the
    four search lists the module loads when it is imported. */
module FileUtils {
  import opened Wrappers
  import StringUtils

  // ---------------------------------------------------------------------------
  // content.split(/\r?\n/)
  // ---------------------------------------------------------------------------

  /** The position of the first '\n' of `s`, or `|s|` when it has none. */
  function IndexOfNewline(s: string): (i: nat)
    ensures i <= |s|
    ensures forall j :: 0 <= j < i ==> s[j] != '\n'
    ensures i < |s| ==> s[i] == '\n'
    decreases |s|
  {
    if s == [] || s[0] == '\n' then 0 else 1 + IndexOfNewline(s[1..])
  }

  predicate EndsWithCarriageReturn(s: string) {
    s != [] && s[|s| - 1] == '\r'
  }

  /** A piece followed by "\r\n" loses the '\r', which belongs to the separator. */
  function DropCarriageReturn(piece: string): (r: string)
    ensures EndsWithCarriageReturn(piece) ==> r + "\r" == piece
    ensures !EndsWithCarriageReturn(piece) ==> r == piece
  {
    if EndsWithCarriageReturn(piece) then piece[..|piece| - 1] else piece
  }

  /** `content.split(/\r?\n/)`: the pieces between separators, where a separator
      is "\n" or "\r\n" and a lone '\r' is ordinary text. There is always one
      more piece than there are '\n' characters. */
  function SplitLines(content: string): (pieces: seq<string>)
    ensures |pieces| >= 1
    ensures forall p <- pieces :: '\n' !in p
    ensures '\n' !in content ==> pieces == [content]
    decreases |content|
  {
    var i := IndexOfNewline(content);
    if i == |content| then
      assert content[..i] == content;
      [content]
    else
      [DropCarriageReturn(content[..i])] + SplitLines(content[i + 1..])
  }

  /** Every '\n' of the text ends exactly one piece. */
  lemma {:induction false} SplitLinesCount(content: string)
    ensures |SplitLines(content)| == 1 + multiset(content)['\n']
    decreases |content|
  {
    var i := IndexOfNewline(content);
    if i == |content| {
      assert '\n' !in multiset(content);
    } else {
      var a, b := content[..i], content[i + 1..];
      assert content == a + "\n" + b;
      SplitLinesCons(a, b);
      SplitLinesCount(b);
      NewlineCountCons(a, b);
    }
  }

  lemma {:induction false} NewlineCountCons(a: string, b: string)
    requires '\n' !in a
    ensures multiset(a + "\n" + b)['\n'] == 1 + multiset(b)['\n']
  {
    assert multiset(a + "\n" + b) == multiset(a) + multiset("\n") + multiset(b);
    assert '\n' !in multiset(a);
  }

  /** The lines joined with "\n", the inverse of `SplitLines`. */
  function JoinLines(lines: seq<string>): string
    decreases |lines|
  {
    if lines == [] then []
    else if |lines| == 1 then lines[0]
    else lines[0] + "\n" + JoinLines(lines[1..])
  }

  /** Splitting a text that begins with a newline-free piece and a '\n'. */
  lemma {:induction false} SplitLinesCons(a: string, b: string)
    requires '\n' !in a
    ensures SplitLines(a + "\n" + b) == [DropCarriageReturn(a)] + SplitLines(b)
  {
    var c := a + "\n" + b;
    assert c[|a|] == '\n';
    assert forall j :: 0 <= j < |a| ==> c[j] == a[j];
    assert IndexOfNewline(c) == |a|;
    assert c[..|a|] == a;
    assert c[|a| + 1..] == b;
  }

  /** Joining lines that hold no '\n' and do not end in '\r', then splitting,
      gives back the lines. */
  lemma {:induction false} SplitJoinLines(lines: seq<string>)
    requires lines != []
    requires forall l <- lines :: '\n' !in l && !EndsWithCarriageReturn(l)
    ensures SplitLines(JoinLines(lines)) == lines
    decreases |lines|
  {
    if |lines| > 1 {
      SplitJoinLines(lines[1..]);
      SplitJoinStep(lines);
    }
  }

  /** The inductive step of `SplitJoinLines`: the first line comes back first. */
  lemma {:induction false} SplitJoinStep(lines: seq<string>)
    requires |lines| > 1 && '\n' !in lines[0] && !EndsWithCarriageReturn(lines[0])
    requires SplitLines(JoinLines(lines[1..])) == lines[1..]
    ensures SplitLines(JoinLines(lines)) == lines
  {
    SplitLinesCons(lines[0], JoinLines(lines[1..]));
    assert [lines[0]] + lines[1..] == lines;
  }

  /** Splitting a text without '\r', then joining with "\n", gives back the text. */
  lemma {:induction false} JoinSplitLines(content: string)
    requires '\r' !in content
    ensures JoinLines(SplitLines(content)) == content
    decreases |content|
  {
    var i := IndexOfNewline(content);
    if i < |content| {
      var a, b := content[..i], content[i + 1..];
      assert content == a + "\n" + b;
      assert !EndsWithCarriageReturn(a);
      SplitLinesCons(a, b);
      JoinSplitLines(b);
      assert SplitLines(content)[1..] == SplitLines(b);
    }
  }

  // ---------------------------------------------------------------------------
  // .filter(line => line.trim().length > 0)
  // ---------------------------------------------------------------------------

  /** `xs.filter(keep)`: the elements `keep` accepts, in their original order. */
  function Filter<T>(keep: T -> bool, xs: seq<T>): (kept: seq<T>)
    ensures |kept| <= |xs|
    ensures forall x <- kept :: x in xs && keep(x)
    decreases |xs|
  {
    if xs == [] then []
    else if keep(xs[0]) then [xs[0]] + Filter(keep, xs[1..])
    else Filter(keep, xs[1..])
  }

  /** One step of the filter, on a sequence written as a first element and the rest. */
  lemma {:induction false} FilterCons<T>(keep: T -> bool, x: T, rest: seq<T>)
    ensures keep(x) ==> Filter(keep, [x] + rest) == [x] + Filter(keep, rest)
    ensures !keep(x) ==> Filter(keep, [x] + rest) == Filter(keep, rest)
  {
    assert ([x] + rest)[0] == x;
    assert ([x] + rest)[1..] == rest;
  }

  /** Every element the filter accepts is kept. */
  lemma {:induction false} FilterKeeps<T>(keep: T -> bool, xs: seq<T>, x: T)
    requires x in xs && keep(x)
    ensures x in Filter(keep, xs)
    decreases |xs|
  {
    if x != xs[0] {
      FilterKeeps(keep, xs[1..], x);
    }
  }

  /** Filtering distributes over concatenation, so the kept elements keep their order. */
  lemma {:induction false} FilterAppend<T>(keep: T -> bool, a: seq<T>, b: seq<T>)
    ensures Filter(keep, a + b) == Filter(keep, a) + Filter(keep, b)
    decreases |a|
  {
    if a == [] {
      assert a + b == b;
    } else {
      assert (a + b)[0] == a[0];
      assert (a + b)[1..] == a[1..] + b;
      FilterAppend(keep, a[1..], b);
    }
  }

  /** A sequence whose elements are all accepted is kept whole. */
  lemma {:induction false} FilterAll<T>(keep: T -> bool, xs: seq<T>)
    requires forall x <- xs :: keep(x)
    ensures Filter(keep, xs) == xs
    decreases |xs|
  {
    if xs != [] {
      FilterAll(keep, xs[1..]);
      assert [xs[0]] + xs[1..] == xs;
    }
  }

  /** The test of `getLines`' filter: `line.trim().length > 0`. */
  predicate IsNonBlank(line: string) {
    |StringUtils.Trim(line)| > 0
  }

  /** A line passes the filter exactly when `isEmpty` rejects it. */
  lemma {:induction false} NonBlankIff(line: string)
    ensures IsNonBlank(line) <==> !StringUtils.IsEmpty(line)
  {
  }

  // ---------------------------------------------------------------------------
  // getLines
  // ---------------------------------------------------------------------------

  /** `getLines(filePath)` on the text `content` that `fs.readFileSync` returned:
      the pieces of the split that hold a non-whitespace character, untrimmed. */
  function GetLines(content: string): seq<string>
  {
    Filter(IsNonBlank, SplitLines(content))
  }

  /** Every line `getLines` returns is one line of the file and holds a
      non-whitespace character, and no such line of the file is dropped. */
  lemma {:induction false} GetLinesKeepsNonBlank(content: string)
    ensures forall l <- GetLines(content) :: !StringUtils.IsEmpty(l) && '\n' !in l
    ensures forall l <- SplitLines(content) :: !StringUtils.IsEmpty(l) ==> l in GetLines(content)
  {
    var pieces := SplitLines(content);
    forall l <- pieces | !StringUtils.IsEmpty(l) ensures l in Filter(IsNonBlank, pieces) {
      FilterKeeps(IsNonBlank, pieces, l);
    }
  }

  /** Non-blank lines without '\n' and without a final '\r', written one per line,
      are read back unchanged. */
  lemma {:induction false} GetLinesRoundTrip(lines: seq<string>)
    requires forall l <- lines :: '\n' !in l && !EndsWithCarriageReturn(l) && !StringUtils.IsEmpty(l)
    ensures GetLines(JoinLines(lines)) == lines
  {
    if lines == [] {
      var empty: string := [];
      assert SplitLines(empty) == [empty];
      FilterCons(IsNonBlank, empty, []);
      assert [empty] + [] == [empty];
    } else {
      SplitJoinLines(lines);
      FilterAll(IsNonBlank, lines);
    }
  }

  /** A text yields no lines exactly when it is all whitespace. */
  lemma {:induction false} GetLinesEmptyIff(content: string)
    ensures GetLines(content) == [] <==> StringUtils.IsEmpty(content)
    decreases |content|
  {
    var i := IndexOfNewline(content);
    if i == |content| {
      FilterCons(IsNonBlank, content, []);
      assert [content] + [] == [content];
    } else {
      var a, b := content[..i], content[i + 1..];
      assert content == a + "\n" + b;
      GetLinesEmptyIff(b);
      GetLinesConsEmpty(a, b);
      IsEmptyDropCarriageReturn(a);
      IsEmptyAroundNewline(a, b);
    }
  }

  lemma {:induction false} GetLinesConsEmpty(a: string, b: string)
    requires '\n' !in a
    ensures GetLines(a + "\n" + b) == [] <==> StringUtils.IsEmpty(DropCarriageReturn(a)) && GetLines(b) == []
  {
    SplitLinesCons(a, b);
    FilterCons(IsNonBlank, DropCarriageReturn(a), SplitLines(b));
  }

  lemma {:induction false} IsEmptyDropCarriageReturn(a: string)
    ensures StringUtils.IsEmpty(DropCarriageReturn(a)) <==> StringUtils.IsEmpty(a)
  {
    if EndsWithCarriageReturn(a) {
      AllSpaceAppend(DropCarriageReturn(a), "\r");
    }
  }

  lemma {:induction false} IsEmptyAroundNewline(a: string, b: string)
    ensures StringUtils.IsEmpty(a + "\n" + b) <==> StringUtils.IsEmpty(a) && StringUtils.IsEmpty(b)
  {
    AllSpaceAppend(a + "\n", b);
    AllSpaceAppend(a, "\n");
  }

  lemma {:induction false} AllSpaceAppend(a: string, b: string)
    ensures StringUtils.AllSpace(a + b) <==> StringUtils.AllSpace(a) && StringUtils.AllSpace(b)
  {
    if StringUtils.AllSpace(a + b) {
      assert forall i :: 0 <= i < |a| ==> a[i] == (a + b)[i];
      assert forall i :: 0 <= i < |b| ==> b[i] == (a + b)[|a| + i];
    }
  }

  /** A non-blank text with no '\n' is one line, returned as it is. */
  lemma {:induction false} GetLinesSingleLine(content: string)
    requires '\n' !in content && !StringUtils.IsEmpty(content)
    ensures GetLines(content) == [content]
  {
    FilterCons(IsNonBlank, content, []);
    assert [content] + [] == [content];
  }

  /** Splitting off the first line: `getLines` keeps it, without a final '\r',
      when it holds a non-whitespace character, and drops it otherwise. */
  lemma {:induction false} GetLinesCons(a: string, b: string)
    requires '\n' !in a
    ensures IsNonBlank(DropCarriageReturn(a)) ==> GetLines(a + "\n" + b) == [DropCarriageReturn(a)] + GetLines(b)
    ensures !IsNonBlank(DropCarriageReturn(a)) ==> GetLines(a + "\n" + b) == GetLines(b)
  {
    SplitLinesCons(a, b);
    FilterCons(IsNonBlank, DropCarriageReturn(a), SplitLines(b));
  }

  /** A line that `getLines` returns exactly as written. */
  predicate PlainLine(w: string) {
    '\n' !in w && !EndsWithCarriageReturn(w) && !StringUtils.IsEmpty(w)
  }

  lemma {:induction false} PlainLineKept(w: string, rest: string, lines: seq<string>)
    requires PlainLine(w) && GetLines(rest) == lines
    ensures GetLines(w + "\n" + rest) == [w] + lines
  {
    NonBlankIff(w);
    GetLinesCons(w, rest);
  }

  lemma {:induction false} CrLineKept(w: string, rest: string, lines: seq<string>)
    requires PlainLine(w) && GetLines(rest) == lines
    ensures GetLines(w + "\r" + "\n" + rest) == [w] + lines
  {
    NonBlankIff(w);
    var a := w + "\r";
    assert DropCarriageReturn(a) == w;
    GetLinesCons(a, rest);
  }

  lemma {:induction false} BlankLineDropped(rest: string)
    ensures GetLines("\n" + rest) == GetLines(rest)
  {
    var empty: string := [];
    assert empty + "\n" + rest == "\n" + rest;
    assert !IsNonBlank(DropCarriageReturn(empty));
    GetLinesCons(empty, rest);
  }

  lemma {:induction false} LoneNewline()
    ensures GetLines("\n") == []
  {
    assert StringUtils.AllSpace("\n");
    GetLinesEmptyIff("\n");
  }

  /** A line that starts with a letter keeps every character as written. */
  lemma {:induction false} PlainWord(w: string)
    requires w != [] && 'a' <= w[0] <= 'z' && '\n' !in w && w[|w| - 1] != '\r'
    ensures PlainLine(w)
  {
    assert !StringUtils.IsSpace(w[0]);
  }

  /** The first test file: a blank line, a CRLF ending and two trailing empty lines. */
  lemma {:induction false} GetLinesExampleBlankLines(a: string, b: string, c: string, d: string)
    requires a == "line1" && b == "line2" && c == "line3" && d == "line4"
    ensures GetLines(a + "\n" + (b + "\n" + ("\n" + (c + "\r" + "\n" + (d + "\n" + "\n"))))) == [a, b, c, d]
  {
    PlainWord(a);
    PlainWord(b);
    PlainWord(c);
    PlainWord(d);
    GetLinesFourLines(a, b, c, d);
  }

  lemma {:induction false} GetLinesFourLines(a: string, b: string, c: string, d: string)
    requires PlainLine(a) && PlainLine(b) && PlainLine(c) && PlainLine(d)
    ensures GetLines(a + "\n" + (b + "\n" + ("\n" + (c + "\r" + "\n" + (d + "\n" + "\n"))))) == [a, b, c, d]
  {
    var r4 := d + "\n" + "\n";
    var r3 := c + "\r" + "\n" + r4;
    var r1 := b + "\n" + ("\n" + r3);
    LoneNewline();
    PlainLineKept(d, "\n", []);
    CrLineKept(c, r4, [d]);
    BlankLineDropped(r3);
    PlainLineKept(b, "\n" + r3, [c] + [d]);
    PlainLineKept(a, r1, [b] + ([c] + [d]));
    ListOfFour(a, b, c, d);
  }

  lemma {:induction false} ListOfFour(a: string, b: string, c: string, d: string)
    ensures [a] + ([b] + ([c] + ([d] + []))) == [a, b, c, d]
  {
  }

  /** The second test file: only empty lines, one of them ended by CRLF. */
  lemma {:induction false} GetLinesExampleOnlyEmpty()
    ensures GetLines("\n\n\r\n\n") == []
  {
    assert StringUtils.AllSpace("\n\n\r\n\n");
    GetLinesEmptyIff("\n\n\r\n\n");
  }

  /** The third test file: LF, CRLF and a lone CR, which does not end a line. */
  lemma {:induction false} GetLinesExampleMixedEndings(u: string, w: string, m: string)
    requires u == "unix" && w == "windows" && m == "mac\rend"
    ensures GetLines(u + "\n" + (w + "\r" + "\n" + m)) == [u, w, m]
  {
    MixedEndingsLines(u, w, m);
    GetLinesThreeLines(u, w, m);
  }

  lemma {:induction false} MixedEndingsLines(u: string, w: string, m: string)
    requires u == "unix" && w == "windows" && m == "mac\rend"
    ensures PlainLine(u) && PlainLine(w) && GetLines(m) == [m]
  {
    assert '\n' !in "unix" && '\n' !in "windows";
    PlainWord(u);
    PlainWord(w);
    LoneCarriageReturnLine(m);
  }

  lemma {:induction false} LoneCarriageReturnLine(m: string)
    requires m == "mac\rend"
    ensures GetLines(m) == [m]
  {
    assert !StringUtils.IsSpace(m[0]);
    GetLinesSingleLine(m);
  }

  lemma {:induction false} GetLinesThreeLines(u: string, w: string, m: string)
    requires PlainLine(u) && PlainLine(w) && GetLines(m) == [m]
    ensures GetLines(u + "\n" + (w + "\r" + "\n" + m)) == [u, w, m]
  {
    CrLineKept(w, m, [m]);
    PlainLineKept(u, w + "\r" + "\n" + m, [w] + [m]);
    ListOfThree(u, w, m);
  }

  lemma {:induction false} ListOfThree(a: string, b: string, c: string)
    ensures [a] + ([b] + [c]) == [a, b, c]
  {
  }

  /** The fourth test file: one line with no newline at all. */
  lemma {:induction false} GetLinesExampleSingleLine(s: string)
    requires s == "single line"
    ensures GetLines(s) == ["single line"]
  {
    assert !StringUtils.IsSpace(s[0]);
    GetLinesSingleLine(s);
  }

  // ---------------------------------------------------------------------------
  // randomFrom
  // ---------------------------------------------------------------------------

  /** Reading `arr[k]` in JavaScript: the element, or `undefined` (None) when `k`
      is outside the array. */
  function ElementAt<T>(arr: seq<T>, k: int): (r: Option<T>)
    ensures r.Some? <==> 0 <= k < |arr|
    ensures r.Some? ==> r.value == arr[k]
  {
    if 0 <= k < |arr| then Some(arr[k]) else None
  }

  /** A value `Math.random()` can return. */
  predicate IsUnitDraw(u: real) {
    0.0 <= u < 1.0
  }

  /** `Math.floor(u * length)` for a draw `u`: an index of the array when it is
      non-empty, and 0 (past the end) when it is empty. */
  function RandomIndex(u: real, length: nat): (k: int)
    requires IsUnitDraw(u)
    ensures length == 0 ==> k == 0
    ensures length > 0 ==> 0 <= k < length
  {
    assert length > 0 ==> u * length as real < length as real by {
      if length > 0 {
        assert (1.0 - u) * length as real > 0.0;
      }
    }
    (u * length as real).Floor
  }

  /** `randomFrom(arr)` when `Math.random()` returned `u`. */
  function RandomFrom<T>(arr: seq<T>, u: real): (r: Option<T>)
    requires IsUnitDraw(u)
    ensures r == None <==> arr == []
    ensures r.Some? ==> r.value in arr
  {
    ElementAt(arr, RandomIndex(u, |arr|))
  }

  /** The draws that pick index `k` are exactly those in the `k`-th of `length`
      equal parts of [0, 1), so every index is equally likely. */
  lemma {:induction false} RandomIndexInterval(u: real, length: nat, k: int)
    requires IsUnitDraw(u) && 0 <= k < length
    ensures RandomIndex(u, length) == k <==> k as real / length as real <= u < (k + 1) as real / length as real
  {
    var n := length as real;
    ScaleByLength(k as real, u, n);
    ScaleByLength((k + 1) as real, u, n);
  }

  /** Comparing `u` with `x / n` is comparing `u * n` with `x`, for `n > 0`. */
  lemma {:induction false} ScaleByLength(x: real, u: real, n: real)
    requires n > 0.0
    ensures x / n <= u <==> x <= u * n
    ensures u < x / n <==> u * n < x
  {
    assert (x / n) * n == x;
    if x / n <= u {
      assert (u - x / n) * n >= 0.0;
    }
    if x <= u * n {
      assert (u - x / n) * n == u * n - x;
    }
  }

  /** Every element can be drawn: the draw `k / |arr|` yields `arr[k]`. */
  lemma {:induction false} RandomFromReaches<T>(arr: seq<T>, k: nat)
    requires k < |arr|
    ensures IsUnitDraw(k as real / |arr| as real)
    ensures RandomFrom(arr, k as real / |arr| as real) == Some(arr[k])
  {
    var n := |arr| as real;
    var u := k as real / n;
    assert u * n == k as real;
    RandomIndexInterval(u, |arr|, k);
  }

  /** A one-element array always yields its element. */
  lemma {:induction false} RandomFromSingleton<T>(x: T, u: real)
    requires IsUnitDraw(u)
    ensures RandomFrom([x], u) == Some(x)
  {
  }

  // ---------------------------------------------------------------------------
  // searchLists
  // ---------------------------------------------------------------------------

  /** The four word lists of the search command. */
  datatype SearchLists = SearchLists(
    modifiers: seq<string>,
    attributes: seq<string>,
    items: seq<string>,
    locations: seq<string>)

  /** The lists as loaded at import, from the texts of SearchModifiers.txt,
      SearchAttributes.txt, SearchItems.txt and SearchLocations.txt. */
  function LoadSearchLists(modifiersText: string, attributesText: string, itemsText: string, locationsText: string): SearchLists
  {
    SearchLists(GetLines(modifiersText), GetLines(attributesText), GetLines(itemsText), GetLines(locationsText))
  }

  /** Every word of a loaded list is a single line holding a non-whitespace character. */
  predicate WordsAreLines(words: seq<string>) {
    forall w <- words :: '\n' !in w && !StringUtils.IsEmpty(w)
  }

  lemma {:induction false} LoadSearchListsWords(modifiersText: string, attributesText: string, itemsText: string, locationsText: string)
    ensures var lists := LoadSearchLists(modifiersText, attributesText, itemsText, locationsText);
      WordsAreLines(lists.modifiers) && WordsAreLines(lists.attributes) &&
      WordsAreLines(lists.items) && WordsAreLines(lists.locations)
  {
    GetLinesKeepsNonBlank(modifiersText);
    GetLinesKeepsNonBlank(attributesText);
    GetLinesKeepsNonBlank(itemsText);
    GetLinesKeepsNonBlank(locationsText);
  }

  /** Three words on three lines, as in each word-list file of the tests. */
  lemma {:induction false} ThreeWordFile(a: string, b: string, c: string)
    requires PlainLine(a) && PlainLine(b) && PlainLine(c)
    ensures GetLines(a + "\n" + (b + "\n" + c)) == [a, b, c]
  {
    GetLinesSingleLine(c);
    PlainLineKept(b, c, [c]);
    PlainLineKept(a, b + "\n" + c, [b] + [c]);
    ListOfThree(a, b, c);
  }

  lemma {:induction false} ThreeWords(a: string, b: string, c: string)
    requires a != [] && 'a' <= a[0] <= 'z' && '\n' !in a && a[|a| - 1] != '\r'
    requires b != [] && 'a' <= b[0] <= 'z' && '\n' !in b && b[|b| - 1] != '\r'
    requires c != [] && 'a' <= c[0] <= 'z' && '\n' !in c && c[|c| - 1] != '\r'
    ensures GetLines(a + "\n" + (b + "\n" + c)) == [a, b, c]
  {
    PlainWord(a);
    PlainWord(b);
    PlainWord(c);
    ThreeWordFile(a, b, c);
  }

  /** The word lists of the tests: three words per file. */
  lemma {:induction false} LoadSearchListsExample(m: string, a: string, i: string, l: string)
    requires m == "very" + "\n" + ("slightly" + "\n" + "extremely")
    requires a == "shiny" + "\n" + ("rusty" + "\n" + "old")
    requires i == "sword" + "\n" + ("shield" + "\n" + "potion")
    requires l == "cave" + "\n" + ("forest" + "\n" + "castle")
    ensures LoadSearchLists(m, a, i, l) == SearchLists(
      ["very", "slightly", "extremely"],
      ["shiny", "rusty", "old"],
      ["sword", "shield", "potion"],
      ["cave", "forest", "castle"])
  {
    TestModifiers(m);
    TestAttributes(a);
    TestItems(i);
    TestLocations(l);
  }

  lemma {:induction false} TestModifiers(m: string)
    requires m == "very" + "\n" + ("slightly" + "\n" + "extremely")
    ensures GetLines(m) == ["very", "slightly", "extremely"]
  {
    ThreeWords("very", "slightly", "extremely");
  }

  lemma {:induction false} TestAttributes(a: string)
    requires a == "shiny" + "\n" + ("rusty" + "\n" + "old")
    ensures GetLines(a) == ["shiny", "rusty", "old"]
  {
    ThreeWords("shiny", "rusty", "old");
  }

  lemma {:induction false} TestItems(i: string)
    requires i == "sword" + "\n" + ("shield" + "\n" + "potion")
    ensures GetLines(i) == ["sword", "shield", "potion"]
  {
    ThreeWords("sword", "shield", "potion");
  }

  lemma {:induction false} TestLocations(l: string)
    requires l == "cave" + "\n" + ("forest" + "\n" + "castle")
    ensures GetLines(l) == ["cave", "forest", "castle"]
  {
    ThreeWords("cave", "forest", "castle");
  }
}

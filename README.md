# Lucid-Bot search command and string helpers in Dafny

This project models the pure core of a small chat bot. The model has three parts.

- **String helpers** (`src/utils/stringUtils.ts`): `capitalize`, `truncate`,
  `normalizeWhitespace` and `isEmpty`. They are written as Dafny functions over
  `string`. They come with the JavaScript primitives they rely on: `trim`,
  `slice` with its index normalisation, the `\s` whitespace class and ASCII case
  mapping.
- **Word-list loader** (`src/utils/fileUtils.ts`).
  - `getLines` is modelled as a function of the file's text. It is
    `split(/\r?\n/)` followed by `filter(line => line.trim().length > 0)`.
  - `randomFrom` is modelled as a function of the value `Math.random()`
    returned.
  - The four `searchLists` are the result of `getLines` on the four word files.
- **Search reply** (`src/commands/search.ts`). `execute` draws a modifier, an
  attribute, an item and a location, in that order. It blanks the modifier when
  the attribute is `""` and writes the words into
  `You search around and find a ${modifier} ${attribute} ${item} ${location}.`.
  An absent draw (`undefined`) prints as the text `undefined`.
  `getLines` drops blank lines, so with the lists the module loads the
  attribute is never `""`. The blanking branch (src/commands/search.ts:16-18)
  is reached only with lists built by hand, as in the command's tests.

Modules:

- `Wrappers` (wrappers.dfy): `Option`.
- `StringUtils` (string_utils.dfy).
- `FileUtils` (file_utils.dfy): also holds the `SearchLists` datatype of
  `src/types/types.ts`.
- `Search` (search.dfy).

All three source files are pure once I/O and randomness are lifted out, so the
model is functions and lemmas only.

Two details of the loader that the model keeps as the code has them:

- `split(/\r?\n/)` keeps a lone `\r` inside a line: `"mac\rend"` stays one
  line.
- Kept lines are returned untrimmed. `trim` only decides whether a line is
  kept.

## Model

| member | source | states |
|---|---|---|
| StringUtils.IsSpace | src/utils/stringUtils.ts:23 | the character class of `trim` and `\s`: ASCII space, tab, line feed, vertical tab, form feed, carriage return and the Unicode spaces listed under "Left out"; the promises of `trim` and the run replacement over it are stated by `Trim`, `TrimIsInfix` and `CollapseSpacesShape` |
| StringUtils.ToUpper | src/utils/stringUtils.ts:8 | `toUpperCase` on one character maps a lower-case letter to an upper-case one (to its own counterpart, by `CaseCounterpart`), never yields a lower-case letter, and leaves every other character as it is |
| StringUtils.ToLower | src/utils/stringUtils.ts:8 | `toLowerCase` on one character maps an upper-case letter to a lower-case one (to its own counterpart, by `CaseCounterpart`), never yields an upper-case letter, and leaves every other character as it is |
| StringUtils.CaseCounterpart | src/utils/stringUtils.ts:8 | the k-th letter of "abcdefghijklmnopqrstuvwxyz" is upper-cased to the k-th letter of "ABCDEFGHIJKLMNOPQRSTUVWXYZ", and lower-casing maps it back |
| StringUtils.CaseRoundTrip | src/utils/stringUtils.ts:8 | a letter mapped to the other case changes case, and mapping it back gives the letter itself |
| StringUtils.LowerCase | src/utils/stringUtils.ts:8 | `toLowerCase` keeps the length and lower-cases each character in place |
| StringUtils.Capitalize | src/utils/stringUtils.ts:6-9 | same length; first character upper-cased (unchanged when it is not a lower-case letter); every later character lower-cased; the result is in capitalized form; "" stays "" |
| StringUtils.CapitalizeFixedPoint | src/utils/stringUtils.ts:6-9 | `capitalize(s) == s` exactly when `s` is already capitalized (both directions) |
| StringUtils.CapitalizeIdempotent | src/utils/stringUtils.ts:6-9 | capitalizing twice equals capitalizing once |
| StringUtils.CapitalizeIgnoresCase | src/utils/stringUtils.ts:8 | inputs equal up to ASCII case give the same result |
| StringUtils.CapitalizeExampleLower | src/utils/__tests__/stringUtils.test.ts:5-7 | "hello world" becomes "Hello world" |
| StringUtils.CapitalizeExampleUpper | src/utils/__tests__/stringUtils.test.ts:9-11 | "HELLO WORLD" becomes "Hello world" |
| StringUtils.CapitalizeExampleMixed | src/utils/__tests__/stringUtils.test.ts:13-15 | "hELLo WoRLD" becomes "Hello world" |
| StringUtils.CapitalizeExampleShort | src/utils/__tests__/stringUtils.test.ts:17-24 | "a" becomes "A", "Z" stays "Z", "" stays "" |
| StringUtils.CapitalizeExampleDigits | src/utils/__tests__/stringUtils.test.ts:26-28 | "123hello" is unchanged |
| StringUtils.CapitalizeExampleSymbol | src/utils/__tests__/stringUtils.test.ts:30-32 | "!hello" is unchanged |
| StringUtils.SliceIndex | src/utils/stringUtils.ts:16 | a `slice` index is clamped to `[0, len]`, and a negative index counts back from the end |
| StringUtils.Slice | src/utils/stringUtils.ts:16 | `slice(start, end)` is the substring between the normalised indices, or "" when they cross |
| StringUtils.Truncate | src/utils/stringUtils.ts:14-17 | a string that fits is returned unchanged; with a limit `n >= 3` the result is the first `n-3` characters plus "..." and has length `n`; with a limit below 3 the negative slice end keeps `max(0, \|s\|+n-3)` characters before "..." |
| StringUtils.TruncateFits | src/utils/stringUtils.ts:14-17 | with a limit of at least 3 the result never exceeds the limit, and it is the input or a proper prefix of it followed by "..." |
| StringUtils.TruncateUnchangedIff | src/utils/stringUtils.ts:15-16 | for a positive limit, the result equals the input exactly when the input fits |
| StringUtils.TruncateIdempotent | src/utils/stringUtils.ts:14-17 | with a limit of at least 3, truncating twice equals truncating once |
| StringUtils.TruncateShortLimit | src/utils/stringUtils.ts:16 | a limit below 3 is not honoured: the result has length `max(3, \|s\|+n)`, which exceeds the limit |
| StringUtils.TruncateExampleLong | src/utils/__tests__/stringUtils.test.ts:36-38 | ("Hello World", 8) gives "Hello..." |
| StringUtils.TruncateExampleFits | src/utils/__tests__/stringUtils.test.ts:40-55 | ("Hello", 10), ("Hello", 5) and ("", 5) are unchanged |
| StringUtils.TruncateExampleTiny | src/utils/__tests__/stringUtils.test.ts:48-51 | ("Hello World", 3) gives "..." and ("Hello World", 4) gives "H..." |
| StringUtils.TruncateExampleZero | src/utils/__tests__/stringUtils.test.ts:57-59 | ("Hello", 0) gives "He...", because the slice end -3 counts from the end |
| StringUtils.TrimStart | src/utils/stringUtils.ts:23 | the result is a suffix of the input; only whitespace was removed; it does not start with whitespace |
| StringUtils.TrimEnd | src/utils/stringUtils.ts:23 | the result is a prefix of the input; only whitespace was removed; it does not end with whitespace |
| StringUtils.Trim | src/utils/stringUtils.ts:23 | `trim` leaves no whitespace at either end, and returns "" exactly when the input is all whitespace |
| StringUtils.TrimIsInfix | src/utils/stringUtils.ts:23 | `trim` returns a contiguous middle of the input with only whitespace on either side of it |
| StringUtils.IsEmpty | src/utils/stringUtils.ts:29-31 | `isEmpty(s)` holds exactly when every character of `s` is whitespace, "" included |
| StringUtils.IsEmptyExampleNothing | src/utils/__tests__/stringUtils.test.ts:89-91 | "" is empty |
| StringUtils.IsEmptyExampleSpaces | src/utils/__tests__/stringUtils.test.ts:93-95 | "   " is empty |
| StringUtils.IsEmptyExampleControl | src/utils/__tests__/stringUtils.test.ts:95-96 | "\t" and "\n" are empty |
| StringUtils.IsEmptyExampleMixed | src/utils/__tests__/stringUtils.test.ts:97 | "  \t\n  " is empty |
| StringUtils.IsEmptyExampleText | src/utils/__tests__/stringUtils.test.ts:100-109 | "hello", "a", "!" and "123" are not empty |
| StringUtils.IsEmptyExamplePadded | src/utils/__tests__/stringUtils.test.ts:102 | " hello " is not empty |
| StringUtils.CollapseSpaces | src/utils/stringUtils.ts:23 | `replace(/\s+/g, ' ')`: every maximal run of whitespace becomes one ' '; its promises are `CollapseSpacesShape`, `CollapseFixes` and `CollapseTrimmed` |
| StringUtils.CollapseSpacesShape | src/utils/stringUtils.ts:23 | `replace(/\s+/g, ' ')` keeps the kind (whitespace or not) of both ends, and leaves only plain spaces, never two in a row |
| StringUtils.CollapseFixes | src/utils/stringUtils.ts:23 | a string whose whitespace is already single plain spaces is left alone by the run replacement |
| StringUtils.NormalizeWhitespace | src/utils/stringUtils.ts:22-24 | the result has no whitespace at either end, every whitespace character in it is ' ', no two are adjacent, and it is "" exactly when `isEmpty` holds of the input |
| StringUtils.NormalizeUnchangedIff | src/utils/stringUtils.ts:22-24 | `normalizeWhitespace(s) == s` exactly when `s` is already in normal form |
| StringUtils.NormalizeIdempotent | src/utils/stringUtils.ts:22-24 | normalizing twice equals normalizing once |
| StringUtils.LeadingWord | src/utils/stringUtils.ts:23 | the longest whitespace-free prefix: a prefix, whitespace-free, and followed by whitespace or the end |
| StringUtils.WordsAreWords | src/utils/stringUtils.ts:23 | every word of a string is non-empty and holds no whitespace |
| StringUtils.NormalizeJoinsWords | src/utils/stringUtils.ts:22-24 | `normalizeWhitespace` equals splitting the input into its words and joining them with single spaces |
| StringUtils.WordsOfTrim | src/utils/stringUtils.ts:23 | `trim` does not change the words of a string |
| StringUtils.CollapseTrimmed | src/utils/stringUtils.ts:23 | on a string with no whitespace at either end, the run replacement joins the words with single spaces |
| StringUtils.NormalizeIgnoresOuterSpace | src/utils/stringUtils.ts:22-24 | whitespace added before and after the text does not change the result |
| StringUtils.NormalizeTwoWords | src/utils/stringUtils.ts:22-24 | any run of whitespace between two words becomes exactly one space |
| StringUtils.NormalizeExampleOuter | src/utils/__tests__/stringUtils.test.ts:63-65 | "  hello world  " gives "hello world" |
| StringUtils.NormalizeExampleSpaces | src/utils/__tests__/stringUtils.test.ts:67-69 | "hello    world" gives "hello world" |
| StringUtils.NormalizeExampleTabs | src/utils/__tests__/stringUtils.test.ts:71-73 | "hello\t\n  world" gives "hello world" |
| StringUtils.NormalizeExampleBlank | src/utils/__tests__/stringUtils.test.ts:75-77 | "   \t\n  " gives "" |
| StringUtils.NormalizeExampleEmpty | src/utils/__tests__/stringUtils.test.ts:79-81 | "" gives "" |
| StringUtils.NormalizeExampleNormal | src/utils/__tests__/stringUtils.test.ts:83-85 | "hello world" is unchanged |
| FileUtils.IndexOfNewline | src/utils/fileUtils.ts:8 | the position of the first '\n', or the length when there is none |
| FileUtils.DropCarriageReturn | src/utils/fileUtils.ts:8 | the optional '\r' before a '\n' belongs to the separator and is removed from the piece |
| FileUtils.SplitLines | src/utils/fileUtils.ts:8 | `split(/\r?\n/)` gives at least one piece, no piece holds '\n', and text without '\n' is one piece |
| FileUtils.SplitLinesCount | src/utils/fileUtils.ts:8 | `split(/\r?\n/)` gives exactly one more piece than the text has '\n' characters |
| FileUtils.SplitLinesCons | src/utils/fileUtils.ts:8 | a newline-free first piece followed by '\n' is split off, losing a final '\r' |
| FileUtils.SplitJoinLines | src/utils/fileUtils.ts:8 | lines without '\n' and without a final '\r', joined with '\n', split back into the same lines |
| FileUtils.JoinSplitLines | src/utils/fileUtils.ts:8 | a text without '\r', split and joined again with '\n', is unchanged |
| FileUtils.Filter | src/utils/fileUtils.ts:8 | `filter` keeps only accepted elements of the input and is no longer than it |
| FileUtils.FilterKeeps | src/utils/fileUtils.ts:8 | every accepted element of the input is kept |
| FileUtils.FilterAppend | src/utils/fileUtils.ts:8 | filtering distributes over concatenation, so the kept elements stay in order |
| FileUtils.FilterAll | src/utils/fileUtils.ts:8 | a sequence of accepted elements is kept whole |
| FileUtils.IsNonBlank | src/utils/fileUtils.ts:8 | the filter `line.trim().length > 0`; `NonBlankIff` states it accepts exactly the lines `isEmpty` rejects |
| FileUtils.NonBlankIff | src/utils/fileUtils.ts:8 | the filter `line.trim().length > 0` accepts a line exactly when `isEmpty` rejects it |
| FileUtils.GetLines | src/utils/fileUtils.ts:6-9 | `getLines` on the text the file read returned: the pieces of the split that pass the filter, untrimmed and in order; its promises are `GetLinesKeepsNonBlank`, `GetLinesRoundTrip`, `GetLinesEmptyIff` and `GetLinesCons` |
| FileUtils.GetLinesKeepsNonBlank | src/utils/fileUtils.ts:6-9 | every returned line holds a non-whitespace character and no '\n', and every such piece of the split is returned |
| FileUtils.GetLinesRoundTrip | src/utils/fileUtils.ts:6-9 | non-blank lines without '\n' or a final '\r', written one per line, are read back unchanged and in order |
| FileUtils.GetLinesEmptyIff | src/utils/fileUtils.ts:6-9 | a text yields no lines exactly when it is all whitespace |
| FileUtils.GetLinesSingleLine | src/utils/fileUtils.ts:6-9 | a non-blank text without '\n' is returned as its only line, untrimmed |
| FileUtils.GetLinesCons | src/utils/fileUtils.ts:8 | the first line is kept, without its final '\r', when it is non-blank, and dropped otherwise |
| FileUtils.GetLinesExampleBlankLines | src/utils/__tests__/fileUtils.test.ts:35-43 | "line1\nline2\n\nline3\r\nline4\n\n" gives the four lines |
| FileUtils.GetLinesExampleOnlyEmpty | src/utils/__tests__/fileUtils.test.ts:45-52 | "\n\n\r\n\n" gives no lines |
| FileUtils.GetLinesExampleMixedEndings | src/utils/__tests__/fileUtils.test.ts:54-61 | "unix\nwindows\r\nmac\rend" gives "unix", "windows" and "mac\rend": a lone '\r' does not end a line |
| FileUtils.GetLinesExampleSingleLine | src/utils/__tests__/fileUtils.test.ts:63-70 | "single line" gives itself as the only line |
| FileUtils.ElementAt | src/utils/fileUtils.ts:13 | `arr[k]` is the element when `k` is an index and absent (`undefined`) otherwise |
| FileUtils.RandomIndex | src/utils/fileUtils.ts:13 | `Math.floor(Math.random() * arr.length)` is an index of a non-empty array, and 0 for an empty one |
| FileUtils.RandomFrom | src/utils/fileUtils.ts:12-14 | the result is absent exactly when the array is empty, and is otherwise an element of the array |
| FileUtils.RandomIndexInterval | src/utils/fileUtils.ts:13 | index `k` is chosen exactly when the draw lies in `[k/n, (k+1)/n)`, so every index has an equal share of the draws |
| FileUtils.RandomFromReaches | src/utils/fileUtils.ts:12-14 | every element of the array is returned for some draw |
| FileUtils.RandomFromSingleton | src/utils/__tests__/fileUtils.test.ts:89-94 | a one-element array always yields its element |
| FileUtils.LoadSearchLists | src/utils/fileUtils.ts:17-21 | the four lists are `getLines` of the modifier, attribute, item and location files; `LoadSearchListsWords` and `LoadSearchListsExample` state what they hold |
| FileUtils.LoadSearchListsWords | src/utils/fileUtils.ts:17-21 | every word of the four loaded lists is one line holding a non-whitespace character |
| FileUtils.LoadSearchListsExample | src/utils/__tests__/fileUtils.test.ts:133-148 | the test files load as ["very", "slightly", "extremely"], ["shiny", "rusty", "old"], ["sword", "shield", "potion"] and ["cave", "forest", "castle"] |
| Search.Render | src/commands/search.ts:19 | `${x}` prints a drawn word as itself and an absent draw as "undefined"; `MessageExampleUndefined` shows the latter in a reply |
| Search.ShownModifier | src/commands/search.ts:16-18 | the modifier is blanked exactly when the attribute is `""`; `EmptyAttributeHidesModifier` and `ModifierShownIff` state the consequence for the reply |
| Search.Message | src/commands/search.ts:15-19 | the reply for four drawn values; `MessageLayout` places each part, `EmptyAttributeHidesModifier` and `ModifierShownIff` state when the modifier shows |
| Search.Search | src/commands/search.ts:11-19 | `execute`'s reply for four draws of `Math.random()`; `SearchDrawsFromLists` and `SearchReachesEveryCombination` state which replies can occur |
| Search.MessageLayout | src/commands/search.ts:19 | the reply is the fixed opening, then the shown modifier, attribute, item and location at known positions separated by single spaces, then a final '.' |
| Search.LayoutAfter | src/commands/search.ts:19 | the same layout for the template after any opening |
| Search.EmptyAttributeHidesModifier | src/commands/search.ts:16-19 | with the attribute `""` the modifier drawn does not matter, and the reply has three spaces between "find a" and the item |
| Search.ModifierShownIff | src/commands/search.ts:16-19 | with any other attribute, two draws differing only in the modifier give the same reply exactly when the modifiers print the same |
| Search.LoadedListsShowModifier | src/commands/search.ts:11-18 | with lists loaded by `getLines`, the attribute drawn is never `""`, so the modifier is always shown |
| Search.SearchDrawsFromLists | src/commands/search.ts:11-19 | every reply comes from one draw of each list, in the order modifiers, attributes, items, locations, each drawn value being a word of its list or absent exactly when that list is empty |
| Search.SearchReachesEveryCombination | src/commands/search.ts:11-19 | for any chosen word of each non-empty list there are draws whose reply uses exactly those four words |
| Search.MessageExampleFull | src/commands/__tests__/search.test.ts:49-62 | "very", "shiny", "sword", "in a cave" give "You search around and find a very shiny sword in a cave." |
| Search.MessageExampleEmptyAttribute | src/commands/__tests__/search.test.ts:64-77 | "extremely", "", "potion", "under a rock" give "You search around and find a   potion under a rock." |
| Search.MessageExampleSecond | src/commands/__tests__/search.test.ts:128-138 | "slightly", "rusty", "potion", "under a rock" give "You search around and find a slightly rusty potion under a rock." |
| Search.MessageExampleUndefined | src/commands/__tests__/search.test.ts:142-154 | an absent modifier gives "You search around and find a undefined shiny sword in a cave." |

The message examples are stated as `Opening + "<sentence>"`, where `Opening` is
the constant "You search around and find a ".

## Left out

- `fs.readFileSync` in `getLines`, and the loading of the four word files at
  import (src/utils/fileUtils.ts:7, 17-21). These are file I/O. `GetLines` and
  `LoadSearchLists` take the file texts as parameters. The read-failure path
  (the exception the test at src/utils/__tests__/fileUtils.test.ts:72-78
  expects) is not modelled.
- FileUtils.RandomFrom: `Math.random()` becomes a parameter `u` with
  `0 <= u < 1`. `u * arr.length` is exact real arithmetic rather than an IEEE
  double, so rounding in the product is not modelled.
- `interaction.reply`, and its rejection propagating out of `execute`
  (src/commands/search.ts:20, src/commands/__tests__/search.test.ts:95-107).
  This is an asynchronous call into the chat library. `Search.Search` returns
  the message that would be sent.
- StringUtils.Capitalize: case mapping covers ASCII letters only. Other
  characters are left unchanged, and the Unicode case mappings of
  `toUpperCase`/`toLowerCase` are not modelled.
- StringUtils.Truncate: `maxLength` is an integer. Non-integer, infinite and
  NaN JavaScript numbers are not modelled.
- StringUtils.Truncate: strings are sequences of Unicode code points, not of
  JavaScript's UTF-16 code units, so `length` and `slice` count code points.
  For characters outside the Basic Multilingual Plane the results differ from
  JavaScript: `"\u{1F600}\u{1F600}"` has length 2 here and 4 in JavaScript, so
  `truncate` with limit 3 keeps it here and returns `"..."` there, and a slice
  can never cut a surrogate pair in two.
- StringUtils.IsSpace: whitespace is a fixed set, the one `trim` and `\s` use
  today: ASCII space, tab, line feed, vertical tab, form feed, carriage return,
  U+00A0, U+1680, U+2000 to U+200A, U+2028, U+2029, U+202F, U+205F, U+3000 and
  U+FEFF. Later changes to the Unicode space separators are not followed.
- `randomFrom` and `execute` never modify the word lists. In the model this
  holds by construction: every operation is a function of immutable values.
- Command metadata built with `SlashCommandBuilder` (name, description), and
  the `BotCommand` interface of src/types/types.ts. These are library objects.
- src/index.ts (client construction, token loading, command registration,
  login and dispatch) and src/commands/rem.ts (an attachment reply). These are
  library calls only and are not part of this model.

/** The `/search` command's reply: four words drawn from the search lists and
    written into one sentence. */
module Search {
  import opened Wrappers
  import FileUtils
  import StringUtils

  /** The fixed opening of every reply. */
  const Opening: string := "You search around and find a "

  /** `${x}` inside a template literal: the string itself, or the text
      "undefined" when `randomFrom` returned nothing. */
  function Render(x: Option<string>): string
  {
    match x
    case Some(s) => s
    case None => "undefined"
  }

  /** The modifier that is shown: it is blanked when the attribute drawn is the
      empty string, and kept otherwise (an absent attribute is not `""`). */
  function ShownModifier(modifier: Option<string>, attribute: Option<string>): Option<string>
  {
    if attribute == Some("") then Some("") else modifier
  }

  /** The template after the opening, `${m} ${a} ${i} ${l}.`: the four words
      separated by single spaces and closed by a full stop. */
  function Sentence(m: string, a: string, i: string, l: string): string
  {
    m + (" " + (a + (" " + (i + (" " + (l + "."))))))
  }

  /** The reply for the four values `randomFrom` returned. */
  function Message(modifier: Option<string>, attribute: Option<string>, item: Option<string>, location: Option<string>): string
  {
    Opening + Sentence(Render(ShownModifier(modifier, attribute)), Render(attribute), Render(item), Render(location))
  }

  /** Where each part of a reply sits in `msg`: `head`, then the four words
      separated by single spaces, then the closing '.'. */
  predicate LaidOut(msg: string, head: string, m: string, a: string, i: string, l: string) {
    var pm := |head|;
    var pa := pm + |m| + 1;
    var pi := pa + |a| + 1;
    var pl := pi + |i| + 1;
    && |msg| == pl + |l| + 1
    && msg[..pm] == head
    && msg[pm..pm + |m|] == m && msg[pm + |m|] == ' '
    && msg[pa..pa + |a|] == a && msg[pa + |a|] == ' '
    && msg[pi..pi + |i|] == i && msg[pi + |i|] == ' '
    && msg[pl..pl + |l|] == l
    && msg[|msg| - 1] == '.'
  }

  /** Every reply is the opening followed by the shown modifier, the attribute,
      the item and the location, one space apart, and a full stop. */
  lemma {:induction false} MessageLayout(modifier: Option<string>, attribute: Option<string>, item: Option<string>, location: Option<string>)
    ensures LaidOut(Message(modifier, attribute, item, location), Opening,
      Render(ShownModifier(modifier, attribute)), Render(attribute), Render(item), Render(location))
  {
    LayoutAfter(Opening, Render(ShownModifier(modifier, attribute)), Render(attribute), Render(item), Render(location));
  }

  /** The layout of `head + Sentence(m, a, i, l)`, for any head. */
  lemma {:induction false} LayoutAfter(head: string, m: string, a: string, i: string, l: string)
    ensures LaidOut(head + Sentence(m, a, i, l), head, m, a, i, l)
  {
    var msg := head + Sentence(m, a, i, l);
    HeadThenRest(msg, head, Sentence(m, a, i, l));
    LaidOutAfterHead(msg, head, m, a, i, l);
  }

  lemma {:induction false} LaidOutAfterHead(msg: string, head: string, m: string, a: string, i: string, l: string)
    requires |head| <= |msg| && msg[..|head|] == head && msg[|head|..] == Sentence(m, a, i, l)
    ensures LaidOut(msg, head, m, a, i, l)
  {
    SentenceAt(msg, |head|, m, a, i, l);
  }

  lemma {:induction false} HeadThenRest(msg: string, head: string, rest: string)
    requires msg == head + rest
    ensures msg[..|head|] == head && msg[|head|..] == rest
  {
  }

  /** The layout of a sentence that is the suffix of `s` from `k`. */
  lemma {:induction false} SentenceAt(s: string, k: nat, m: string, a: string, i: string, l: string)
    requires k <= |s| && s[k..] == Sentence(m, a, i, l)
    ensures var pa := k + |m| + 1;
      var pi := pa + |a| + 1;
      var pl := pi + |i| + 1;
      && |s| == pl + |l| + 1
      && s[k..k + |m|] == m && s[k + |m|] == ' '
      && s[pa..pa + |a|] == a && s[pa + |a|] == ' '
      && s[pi..pi + |i|] == i && s[pi + |i|] == ' '
      && s[pl..pl + |l|] == l
      && s[|s| - 1] == '.'
  {
    var tl := l + ".";
    var ti := i + (" " + tl);
    var ta := a + (" " + ti);
    var pa := k + |m| + 1;
    var pi := pa + |a| + 1;
    var pl := pi + |i| + 1;
    WordThenSpace(s, k, m, ta);
    WordThenSpace(s, pa, a, ti);
    WordThenSpace(s, pi, i, tl);
    SuffixSlot(s, pl, l, ".");
  }

  /** When `w + (" " + r)` is the suffix of `s` from `k`, `w` sits at `k`, a
      space after it, and `r` after the space. */
  lemma {:induction false} WordThenSpace(s: string, k: nat, w: string, r: string)
    requires k <= |s| && s[k..] == w + (" " + r)
    ensures s[k..k + |w|] == w && s[k + |w|] == ' '
    ensures k + |w| + 1 <= |s| && s[k + |w| + 1..] == r
  {
    SuffixSlot(s, k, w, " " + r);
    SuffixSlot(s, k + |w|, " ", r);
  }

  /** When `w + r` is the suffix of `s` from `k`, `w` sits at `k` and `r` after it. */
  lemma {:induction false} SuffixSlot(s: string, k: nat, w: string, r: string)
    requires k <= |s| && s[k..] == w + r
    ensures s[k..k + |w|] == w
    ensures s[k + |w|..] == r
    ensures r != [] ==> s[k + |w|] == r[0]
  {
    assert s[k..k + |w|] == (w + r)[..|w|];
    assert s[k + |w|..] == (w + r)[|w|..];
  }

  /** An empty attribute hides the modifier: whatever modifier was drawn, the
      reply has three spaces between "find a" and the item. */
  lemma {:induction false} EmptyAttributeHidesModifier(m1: Option<string>, m2: Option<string>, item: Option<string>, location: Option<string>)
    ensures Message(m1, Some(""), item, location) == Message(m2, Some(""), item, location)
    ensures Message(m1, Some(""), item, location) == Opening + ("  " + (Render(item) + (" " + (Render(location) + "."))))
  {
    var empty: string := "";
    assert Render(ShownModifier(m1, Some(""))) == empty && Render(Some("")) == empty;
    var rest := Render(item) + (" " + (Render(location) + "."));
    assert Sentence(empty, empty, Render(item), Render(location)) == empty + (" " + (empty + (" " + rest)));
    assert empty + (" " + rest) == " " + rest;
    assert empty + (" " + (" " + rest)) == " " + (" " + rest);
    assert " " + (" " + rest) == "  " + rest;
  }

  /** With any attribute but `""`, the modifier is shown: two draws that differ
      only in the modifier give the same reply exactly when the modifiers
      render the same. */
  lemma {:induction false} ModifierShownIff(m1: Option<string>, m2: Option<string>, attribute: Option<string>, item: Option<string>, location: Option<string>)
    requires attribute != Some("")
    ensures Message(m1, attribute, item, location) == Message(m2, attribute, item, location) <==> Render(m1) == Render(m2)
  {
    var tail := " " + (Render(attribute) + (" " + (Render(item) + (" " + (Render(location) + ".")))));
    assert Message(m1, attribute, item, location) == Opening + (Render(m1) + tail);
    assert Message(m2, attribute, item, location) == Opening + (Render(m2) + tail);
    if Message(m1, attribute, item, location) == Message(m2, attribute, item, location) {
      CancelAround(Opening, Render(m1), Render(m2), tail);
    }
  }

  /** A string between a known head and a known tail is determined. */
  lemma {:induction false} CancelAround(head: string, x: string, y: string, tail: string)
    requires head + (x + tail) == head + (y + tail)
    ensures x == y
  {
    var s := head + (x + tail);
    assert |x| == |y|;
    assert x == s[|head|..|head| + |x|];
    assert y == (head + (y + tail))[|head|..|head| + |y|];
  }

  /** `execute`'s reply when the four calls to `Math.random()` return, in this
      order, the draws for the modifier, the attribute, the item and the
      location. */
  function Search(lists: FileUtils.SearchLists, uModifier: real, uAttribute: real, uItem: real, uLocation: real): string
    requires FileUtils.IsUnitDraw(uModifier) && FileUtils.IsUnitDraw(uAttribute)
    requires FileUtils.IsUnitDraw(uItem) && FileUtils.IsUnitDraw(uLocation)
  {
    Message(
      FileUtils.RandomFrom(lists.modifiers, uModifier),
      FileUtils.RandomFrom(lists.attributes, uAttribute),
      FileUtils.RandomFrom(lists.items, uItem),
      FileUtils.RandomFrom(lists.locations, uLocation))
  }

  /** A value `randomFrom` can return for `words`: a word of the list, or
      nothing exactly when the list is empty. */
  predicate DrawnFrom(x: Option<string>, words: seq<string>) {
    (x == None <==> words == []) && (x.Some? ==> x.value in words)
  }

  /** Every reply is built from one draw of each list, in the order modifiers,
      attributes, items, locations. */
  lemma {:induction false} SearchDrawsFromLists(lists: FileUtils.SearchLists, uModifier: real, uAttribute: real, uItem: real, uLocation: real)
    requires FileUtils.IsUnitDraw(uModifier) && FileUtils.IsUnitDraw(uAttribute)
    requires FileUtils.IsUnitDraw(uItem) && FileUtils.IsUnitDraw(uLocation)
    ensures exists m, a, i, l ::
      && DrawnFrom(m, lists.modifiers) && DrawnFrom(a, lists.attributes)
      && DrawnFrom(i, lists.items) && DrawnFrom(l, lists.locations)
      && Search(lists, uModifier, uAttribute, uItem, uLocation) == Message(m, a, i, l)
  {
    var m := FileUtils.RandomFrom(lists.modifiers, uModifier);
    var a := FileUtils.RandomFrom(lists.attributes, uAttribute);
    var i := FileUtils.RandomFrom(lists.items, uItem);
    var l := FileUtils.RandomFrom(lists.locations, uLocation);
    assert DrawnFrom(m, lists.modifiers) && DrawnFrom(a, lists.attributes);
    assert DrawnFrom(i, lists.items) && DrawnFrom(l, lists.locations);
  }

  /** Every combination of words can come out: for any word of each non-empty
      list there are draws that pick exactly those four. */
  lemma {:induction false} SearchReachesEveryCombination(lists: FileUtils.SearchLists, km: nat, ka: nat, ki: nat, kl: nat)
    requires km < |lists.modifiers| && ka < |lists.attributes|
    requires ki < |lists.items| && kl < |lists.locations|
    ensures exists uModifier, uAttribute, uItem, uLocation ::
      && FileUtils.IsUnitDraw(uModifier) && FileUtils.IsUnitDraw(uAttribute)
      && FileUtils.IsUnitDraw(uItem) && FileUtils.IsUnitDraw(uLocation)
      && Search(lists, uModifier, uAttribute, uItem, uLocation)
         == Message(Some(lists.modifiers[km]), Some(lists.attributes[ka]), Some(lists.items[ki]), Some(lists.locations[kl]))
  {
    var um := km as real / |lists.modifiers| as real;
    var ua := ka as real / |lists.attributes| as real;
    var ui := ki as real / |lists.items| as real;
    var ul := kl as real / |lists.locations| as real;
    FileUtils.RandomFromReaches(lists.modifiers, km);
    FileUtils.RandomFromReaches(lists.attributes, ka);
    FileUtils.RandomFromReaches(lists.items, ki);
    FileUtils.RandomFromReaches(lists.locations, kl);
    assert Search(lists, um, ua, ui, ul)
      == Message(Some(lists.modifiers[km]), Some(lists.attributes[ka]), Some(lists.items[ki]), Some(lists.locations[kl]));
  }

  /** With the lists the module loads, the attribute drawn is never `""`, since
      `getLines` drops blank lines, so the modifier is always shown. */
  lemma {:induction false} LoadedListsShowModifier(modifiersText: string, attributesText: string, itemsText: string, locationsText: string, uModifier: real, uAttribute: real)
    requires FileUtils.IsUnitDraw(uModifier) && FileUtils.IsUnitDraw(uAttribute)
    ensures var lists := FileUtils.LoadSearchLists(modifiersText, attributesText, itemsText, locationsText);
      var modifier := FileUtils.RandomFrom(lists.modifiers, uModifier);
      var attribute := FileUtils.RandomFrom(lists.attributes, uAttribute);
      attribute != Some("") && ShownModifier(modifier, attribute) == modifier
  {
    FileUtils.GetLinesKeepsNonBlank(attributesText);
    assert StringUtils.IsEmpty("");
  }

  // ---------------------------------------------------------------------------
  // The replies of the command's tests
  // ---------------------------------------------------------------------------

  // Each reply below is the opening "You search around and find a " followed
  // by the sentence shown.

  lemma {:induction false} MessageExampleFull(m: string, a: string, i: string, l: string)
    requires m == "very" && a == "shiny" && i == "sword" && l == "in a cave"
    ensures Message(Some(m), Some(a), Some(i), Some(l)) == Opening + "very shiny sword in a cave."
  {
    FullText(m, a, i, l);
  }

  lemma {:induction false} FullText(m: string, a: string, i: string, l: string)
    requires m == "very" && a == "shiny" && i == "sword" && l == "in a cave"
    ensures Sentence(m, a, i, l) == "very shiny sword in a cave."
  {
  }

  lemma {:induction false} MessageExampleEmptyAttribute(m: string, i: string, l: string)
    requires m == "extremely" && i == "potion" && l == "under a rock"
    ensures Message(Some(m), Some(""), Some(i), Some(l)) == Opening + "  potion under a rock."
  {
    EmptyAttributeHidesModifier(Some(m), None, Some(i), Some(l));
    EmptyAttributeText(i, l);
  }

  lemma {:induction false} EmptyAttributeText(i: string, l: string)
    requires i == "potion" && l == "under a rock"
    ensures "  " + (i + (" " + (l + "."))) == "  potion under a rock."
  {
  }

  lemma {:induction false} MessageExampleUndefined(a: string, i: string, l: string)
    requires a == "shiny" && i == "sword" && l == "in a cave"
    ensures Message(None, Some(a), Some(i), Some(l)) == Opening + "undefined shiny sword in a cave."
  {
    UndefinedText(a, i, l);
  }

  lemma {:induction false} UndefinedText(a: string, i: string, l: string)
    requires a == "shiny" && i == "sword" && l == "in a cave"
    ensures Sentence("undefined", a, i, l) == "undefined shiny sword in a cave."
  {
  }

  lemma {:induction false} MessageExampleSecond(m: string, a: string, i: string, l: string)
    requires m == "slightly" && a == "rusty" && i == "potion" && l == "under a rock"
    ensures Message(Some(m), Some(a), Some(i), Some(l)) == Opening + "slightly rusty potion under a rock."
  {
    SecondText(m, a, i, l);
  }

  lemma {:induction false} SecondText(m: string, a: string, i: string, l: string)
    requires m == "slightly" && a == "rusty" && i == "potion" && l == "under a rock"
    ensures Sentence(m, a, i, l) == "slightly rusty potion under a rock."
  {
  }
}

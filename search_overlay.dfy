/**
 The search overlay: which matcher hits are shown for a search term, how a
 field's matched spans are highlighted with `<mark>` elements, how the
 content preview is cut, and what selecting a result does.

 The Fuse.js matcher is not modelled; it is the function `matcher` from a
 search term to its hits in ranking order, each with the spans it matched.
 */
module SearchOverlay {
  import opened Wrappers
  import opened JsString
  import opened JsArray
  import opened Scroll
  import opened UseSearchHook

  /** One entry of the static search corpus. */
  datatype SearchEntry = SearchEntry(
    title: string,
    content: string,
    category: string,
    tags: seq<string>,
    anchor: Option<string>)

  /** A matched span `[start, end]`; the end index is INCLUSIVE. */
  datatype Span = Span(start: int, end: int)

  /** The spans the matcher found in one field (`key`) of an entry. */
  datatype Match = Match(key: string, indices: seq<Span>)

  /** One matcher hit: the entry, its score and the per-field matches. */
  datatype Hit = Hit(item: SearchEntry, score: real, matches: Option<seq<Match>>)

  /** At most this many hits are shown. */
  const MaxResults: nat := 8

  /** The content preview keeps this many characters before the ellipsis. */
  const PreviewLength: nat := 150

  /**
   `<mark class="bg-[#667EEA]/30 text-[#667EEA] px-1 rounded">`. It is spelled
   as a concatenation of short literals because the verifier reads individual
   characters of a short string literal (as `FirstBInMarkup` does) but not of
   one this long.
   */
  const MarkOpen: string := "<mark class=\"" + "bg-[#667EEA]/" + "30 text-[#667" + "EEA] px-1 rou" + "nded\">"
  const MarkClose: string := "</mark>"

  /** How much longer a text gets each time a match is wrapped. */
  const MarkOverhead: nat := |MarkOpen| + |MarkClose|

  // ---------------------------------------------------------------------------
  // Result gating
  // ---------------------------------------------------------------------------

  /**
   The results shown for `term`, given the matcher's `hits` for it: none for a
   term that trims to nothing, otherwise the leading `MaxResults` hits in the
   matcher's order.
   */
  function SearchResults(term: string, hits: seq<Hit>): (r: seq<Hit>)
    ensures |r| <= MaxResults
    ensures r <= hits
    ensures Trim(term) == "" ==> r == []
    ensures Trim(term) != "" ==> |r| == Min(MaxResults, |hits|)
  {
    if Trim(term) != "" then hits[..Min(MaxResults, |hits|)] else []
  }

  /** An empty or all-whitespace term never shows a result. */
  lemma BlankTermShowsNothing(term: string, hits: seq<Hit>)
    requires forall i :: 0 <= i < |term| ==> IsWhitespace(term[i])
    ensures SearchResults(term, hits) == []
  {
    TrimEmptyIffBlank(term);
  }

  /** A term with a non-whitespace character shows the first `min(8, n)` hits, in order. */
  lemma NonBlankTermShowsLeadingHits(term: string, hits: seq<Hit>, k: nat)
    requires exists i :: 0 <= i < |term| && !IsWhitespace(term[i])
    ensures |SearchResults(term, hits)| == Min(MaxResults, |hits|)
    ensures k < Min(MaxResults, |hits|) ==> SearchResults(term, hits)[k] == hits[k]
  {
    TrimEmptyIffBlank(term);
  }

  // ---------------------------------------------------------------------------
  // highlightMatches
  // ---------------------------------------------------------------------------

  /** Every match carries at least one span (the matcher always reports one). */
  predicate HasSpans(ms: seq<Match>) {
    forall i :: 0 <= i < |ms| ==> |ms[i].indices| > 0
  }

  /** The text a match wraps: its FIRST span, end inclusive, cut from the original `text`. */
  function MatchText(text: string, m: Match): (r: string)
    requires |m.indices| > 0
    ensures |r| <= |text|
    ensures 0 <= m.indices[0].start <= m.indices[0].end < |text| ==>
      r == text[m.indices[0].start..m.indices[0].end + 1]
  {
    Substring(text, m.indices[0].start, m.indices[0].end + 1)
  }

  /** The `<mark>` element wrapped around a matched text. */
  function Wrap(matchText: string): string {
    MarkOpen + matchText + MarkClose
  }

  /**
   One pass of the loop: `replace` the first occurrence of the match text in
   the accumulator. A match text that does not occur leaves it unchanged.
   */
  function Step(text: string, acc: string, m: Match): (r: string)
    requires |m.indices| > 0
    ensures (forall q :: 0 <= q ==> !OccursAt(acc, MatchText(text, m), q)) ==> r == acc
  {
    var matchText := MatchText(text, m);
    Replace(acc, matchText, Wrap(matchText))
  }

  /**
   The accumulator after the loop has processed `ms`, starting from `acc`.
   When no match text occurs in `acc`, nothing is marked.
   */
  function HighlightFrom(text: string, acc: string, ms: seq<Match>): (r: string)
    requires HasSpans(ms)
    ensures (forall i, q :: 0 <= i < |ms| && 0 <= q ==> !OccursAt(acc, MatchText(text, ms[i]), q)) ==> r == acc
    decreases |ms|
  {
    if ms == [] then acc else HighlightFrom(text, Step(text, acc, ms[0]), ms[1..])
  }

  /**
   What `highlightMatches(text, matches)` returns: the text itself when the
   matches are missing or none of their texts occurs in it.
   */
  function Highlight(text: string, matches: Option<seq<Match>>): (r: string)
    requires matches.Some? ==> HasSpans(matches.value)
    ensures matches.None? ==> r == text
    ensures matches.Some? && (forall i, q :: 0 <= i < |matches.value| && 0 <= q ==> !OccursAt(text, MatchText(text, matches.value[i]), q)) ==> r == text
  {
    if matches.None? || |matches.value| == 0 then text else HighlightFrom(text, text, matches.value)
  }

  /** The fold processes the first match, then the rest. */
  lemma HighlightFromFirst(text: string, acc: string, ms: seq<Match>)
    requires HasSpans(ms) && |ms| > 0
    ensures HighlightFrom(text, acc, ms) == HighlightFrom(text, Step(text, acc, ms[0]), ms[1..])
  {
  }

  /**
   `highlightMatches`: for each match in turn, the first span's text is cut
   from the ORIGINAL text and its first occurrence in the running accumulator
   is replaced by the marked-up text.
   */
  method HighlightMatches(text: string, matches: Option<seq<Match>>) returns (highlighted: string)
    requires matches.Some? ==> HasSpans(matches.value)
    ensures highlighted == Highlight(text, matches)
    ensures matches.None? || matches.value == [] ==> highlighted == text
  {
    if matches.None? || |matches.value| == 0 {
      return text;
    }
    var ms := matches.value;
    highlighted := text;
    var i := 0;
    while i < |ms|
      invariant 0 <= i <= |ms|
      invariant HighlightFrom(text, highlighted, ms[i..]) == HighlightFrom(text, text, ms)
    {
      ghost var before := highlighted;
      var span := ms[i].indices[0];
      var matchText := Substring(text, span.start, span.end + 1);
      highlighted := Replace(highlighted, matchText, MarkOpen + matchText + MarkClose);
      assert highlighted == Step(text, before, ms[i]);
      HighlightFromFirst(text, before, ms[i..]);
      assert ms[i..][1..] == ms[i + 1..];
      i := i + 1;
    }
  }

  /**
   Each match rewrites one place at most: the first occurrence of its text in
   the accumulator is wrapped and the text on both sides is kept.
   */
  lemma StepWrapsFirstOccurrence(text: string, acc: string, m: Match, p: nat)
    requires |m.indices| > 0
    requires '$' !in MatchText(text, m)
    requires OccursAt(acc, MatchText(text, m), p)
    requires forall q :: 0 <= q < p ==> !OccursAt(acc, MatchText(text, m), q)
    ensures Step(text, acc, m) ==
      acc[..p] + MarkOpen + MatchText(text, m) + MarkClose + acc[p + |MatchText(text, m)|..]
  {
    var matchText := MatchText(text, m);
    MarkupIsDollarFree(matchText);
    ReplaceFirstOccurrence(acc, matchText, Wrap(matchText), p);
  }

  /**
   Whatever the match text holds, a match rewrites only the first occurrence
   of it in the accumulator: the text before and after is kept, and in
   between goes the mark-up after `replace` has expanded its `$` patterns.
   */
  lemma StepRewritesFirstOccurrence(text: string, acc: string, m: Match, p: nat)
    requires |m.indices| > 0
    requires OccursAt(acc, MatchText(text, m), p)
    requires forall q :: 0 <= q < p ==> !OccursAt(acc, MatchText(text, m), q)
    ensures var matchText := MatchText(text, m);
      Step(text, acc, m) ==
        acc[..p] + Substitute(Wrap(matchText), matchText, acc[..p], acc[p + |matchText|..]) + acc[p + |matchText|..]
  {
    var matchText := MatchText(text, m);
    IndexOfIsFirst(acc, matchText, p);
    assert Step(text, acc, m) == Replace(acc, matchText, Wrap(matchText));
  }

  /** The mark-up itself holds no `$`, so a `$`-free match text is wrapped verbatim. */
  lemma MarkupIsDollarFree(matchText: string)
    requires '$' !in matchText
    ensures '$' !in Wrap(matchText)
  {
    assert '$' !in MarkOpen && '$' !in MarkClose;
  }

  /** Only a match's first span is used; the spans after it never change the output. */
  lemma OnlyFirstSpanUsed(text: string, acc: string, key: string, first: Span, rest: seq<Span>)
    ensures Step(text, acc, Match(key, [first] + rest)) == Step(text, acc, Match(key, [first]))
  {
    assert MatchText(text, Match(key, [first] + rest)) == MatchText(text, Match(key, [first]));
  }

  // ---------------------------------------------------------------------------
  // Length of the highlighted text
  // ---------------------------------------------------------------------------

  /** One pass of the loop with the mark-up inserted literally (no `$` expansion). */
  function StepLiteral(text: string, acc: string, m: Match): string
    requires |m.indices| > 0
  {
    var matchText := MatchText(text, m);
    ReplaceLiteral(acc, matchText, Wrap(matchText))
  }

  /** How many matches of `ms` find their text in the accumulator when their turn comes. */
  function WrappedCount(text: string, acc: string, ms: seq<Match>): (k: nat)
    requires HasSpans(ms)
    ensures k <= |ms|
    decreases |ms|
  {
    if ms == [] then 0
    else
      (if IndexOf(acc, MatchText(text, ms[0])).Some? then 1 else 0)
      + WrappedCount(text, StepLiteral(text, acc, ms[0]), ms[1..])
  }

  /**
   The highlighting loop with the matched text spliced in literally: the
   output grows by exactly one `<mark>` wrapper per match whose text was found.
   */
  function HighlightFromLiteral(text: string, acc: string, ms: seq<Match>): (r: string)
    requires HasSpans(ms)
    ensures |r| == |acc| + WrappedCount(text, acc, ms) * MarkOverhead
    decreases |ms|
  {
    if ms == [] then acc
    else
      var matchText := MatchText(text, ms[0]);
      assert |Wrap(matchText)| == |matchText| + MarkOverhead;
      HighlightFromLiteral(text, StepLiteral(text, acc, ms[0]), ms[1..])
  }

  /** `highlightMatches` with the markup inserted literally. */
  function HighlightLiteral(text: string, matches: Option<seq<Match>>): (r: string)
    requires matches.Some? ==> HasSpans(matches.value)
    ensures matches.None? ==> r == text
    ensures matches.Some? ==> |r| == |text| + WrappedCount(text, text, matches.value) * MarkOverhead
    ensures matches.Some? ==> |text| <= |r| <= |text| + |matches.value| * MarkOverhead
  {
    if matches.None? || |matches.value| == 0 then text else HighlightFromLiteral(text, text, matches.value)
  }

  /** No match text holds a `$`. */
  predicate DollarFree(text: string, ms: seq<Match>)
    requires HasSpans(ms)
  {
    forall i :: 0 <= i < |ms| ==> '$' !in MatchText(text, ms[i])
  }

  /** Without `$` in the match texts, the source's loop and the literal one agree. */
  lemma {:induction false} HighlightFromIsLiteral(text: string, acc: string, ms: seq<Match>)
    requires HasSpans(ms) && DollarFree(text, ms)
    ensures HighlightFrom(text, acc, ms) == HighlightFromLiteral(text, acc, ms)
    decreases |ms|
  {
    if ms != [] {
      var matchText := MatchText(text, ms[0]);
      MarkupIsDollarFree(matchText);
      ReplaceVerbatim(acc, matchText, Wrap(matchText));
      assert DollarFree(text, ms[1..]) by {
        forall i | 0 <= i < |ms[1..]| ensures '$' !in MatchText(text, ms[1..][i]) {
          assert ms[1..][i] == ms[i + 1];
        }
      }
      HighlightFromIsLiteral(text, Step(text, acc, ms[0]), ms[1..]);
    }
  }

  /**
   The output is the input lengthened by one `<mark>` wrapper for every match
   whose text was found in the accumulator when processed (match texts
   without `$`).
   */
  lemma HighlightLength(text: string, ms: seq<Match>)
    requires HasSpans(ms) && DollarFree(text, ms)
    ensures |Highlight(text, Some(ms))| == |text| + WrappedCount(text, text, ms) * MarkOverhead
  {
    HighlightFromIsLiteral(text, text, ms);
  }

  // ---------------------------------------------------------------------------
  // Behaviour of the source as written
  // ---------------------------------------------------------------------------

  /** With a single match, the loop is one step. */
  lemma HighlightOne(text: string, m: Match)
    requires |m.indices| > 0
    ensures Highlight(text, Some([m])) == Step(text, text, m)
  {
    assert [m][1..] == [];
    assert HighlightFrom(text, Step(text, text, m), []) == Step(text, text, m);
  }

  /** With two matches, the second searches the output of the first. */
  lemma HighlightTwo(text: string, first: Match, second: Match)
    requires |first.indices| > 0 && |second.indices| > 0
    ensures Highlight(text, Some([first, second])) == Step(text, Step(text, text, first), second)
  {
    var acc := Step(text, text, first);
    assert [first, second][1..] == [second];
    assert HighlightFrom(text, text, [first, second]) == HighlightFrom(text, acc, [second]);
    assert [second][1..] == [];
    assert HighlightFrom(text, Step(text, acc, second), []) == Step(text, acc, second);
  }

  /** The first `b` of anything that starts with the mark-up is the one of `bg-`, at index 13. */
  lemma FirstBInMarkup(acc: string, rest: string, b: string)
    requires acc == MarkOpen + rest && b == "b"
    ensures acc[..13] == "<mark class=\""
    ensures OccursAt(acc, b, 13)
    ensures forall q :: 0 <= q < 13 ==> !OccursAt(acc, b, q)
  {
    assert acc[..13] == "<mark class=\"";
    assert acc[13] == 'b';
    forall q | 0 <= q < 13 ensures !OccursAt(acc, b, q) {
      assert acc[q] == acc[..13][q];
    }
  }

  /** Highlighting the "a" of "ab" wraps it and keeps the "b". */
  lemma FirstMatchWrapped(text: string, first: Match)
    requires text == "ab" && first == Match("title", [Span(0, 0)])
    ensures Step(text, text, first) == MarkOpen + (text[..1] + MarkClose + text[1..])
  {
    assert MatchText(text, first) == text[..1];
    StepWrapsFirstOccurrence(text, text, first, 0);
  }

  /** A "b" matched next is found in the mark-up of an accumulator that starts with `<mark`. */
  lemma SecondMatchInMarkup(text: string, acc: string, rest: string, second: Match)
    requires text == "ab" && second == Match("title", [Span(1, 1)])
    requires acc == MarkOpen + rest
    ensures acc[..13] == "<mark class=\""
    ensures Step(text, acc, second) == acc[..13] + Wrap(text[1..]) + acc[13 + 1..]
  {
    var b := MatchText(text, second);
    assert b == text[1..] && b == "b";
    FirstBInMarkup(acc, rest, b);
    StepWrapsFirstOccurrence(text, acc, second, 13);
  }

  /**
   Later matches search the accumulator, mark-up included: highlighting "a"
   and then "b" in "ab" wraps the `b` of `bg-` inside the first `<mark>`'s
   opening tag, right after `<mark class="`, and leaves the text's own `b`
   unmarked.
   */
  lemma LaterMatchLandsInMarkup(text: string, first: Match, second: Match)
    requires text == "ab"
    requires first == Match("title", [Span(0, 0)]) && second == Match("title", [Span(1, 1)])
    ensures var acc := Wrap(text[..1]) + text[1..];
      && acc[..13] == "<mark class=\""
      && Highlight(text, Some([first, second])) == acc[..13] + Wrap(text[1..]) + acc[13 + 1..]
  {
    HighlightTwo(text, first, second);
    FirstMatchWrapped(text, first);
    var rest := text[..1] + MarkClose + text[1..];
    assert Wrap(text[..1]) + text[1..] == MarkOpen + rest;
    SecondMatchInMarkup(text, Step(text, text, first), rest, second);
  }

  /** `$$` between two `$`-free parts of a template stands for one `$`. */
  lemma SubstituteDoubleDollar(prefix: string, suffix: string, matched: string, before: string, after: string)
    requires '$' !in prefix && '$' !in suffix
    ensures Substitute(prefix + "$$" + suffix, matched, before, after) == prefix + "$" + suffix
  {
    var tail := "$$" + suffix;
    assert prefix + "$$" + suffix == prefix + tail;
    SubstituteVerbatimPrefix(prefix, tail, matched, before, after);
    SubstituteDollarHead(tail, matched, before, after);
    assert tail[2..] == suffix;
    SubstituteVerbatim(suffix, matched, before, after);
    assert prefix + ("$" + suffix) == prefix + "$" + suffix;
  }

  /** A template that starts with `$$` yields one `$` followed by the rest expanded. */
  lemma SubstituteDollarHead(t: string, matched: string, before: string, after: string)
    requires |t| >= 2 && t[0] == '$' && t[1] == '$'
    ensures Substitute(t, matched, before, after) == "$" + Substitute(t[2..], matched, before, after)
  {
  }

  /** `replace` turns the `$$` of the mark-up around "$$" into one `$`. */
  lemma ReplaceExpandsDoubleDollar(text: string, matchText: string)
    requires text == "a$$b" && matchText == text[1..3]
    ensures Replace(text, matchText, Wrap(matchText)) == text[..1] + Wrap(text[1..2]) + text[3..]
  {
    assert OccursAt(text, matchText, 1);
    assert !OccursAt(text, matchText, 0) by { assert text[0..2][0] == 'a'; }
    IndexOfIsFirst(text, matchText, 1);
    MarkupIsDollarFree([]);
    assert matchText == "$$" && text[1..2] == "$";
    SubstituteDoubleDollar(MarkOpen, MarkClose, matchText, text[..1], text[1 + 2..]);
  }

  /**
   The matched text is spliced into the replacement string, so `replace`
   expands a `$$` in it: highlighting `text[1..3]` == "$$" in "a$$b" puts only
   `text[1..2]`, a single `$`, inside the mark.
   */
  lemma DollarPatternInMatchExpanded(text: string, m: Match)
    requires text == "a$$b" && m == Match("title", [Span(1, 2)])
    ensures Highlight(text, Some([m])) == text[..1] + Wrap(text[1..2]) + text[3..]
  {
    HighlightOne(text, m);
    ReplaceExpandsDoubleDollar(text, MatchText(text, m));
  }

  /** Inserted literally, the mark around "$$" keeps both dollar signs. */
  lemma LiteralKeepsDoubleDollar(text: string, m: Match)
    requires text == "a$$b" && m == Match("title", [Span(1, 2)])
    ensures HighlightLiteral(text, Some([m])) == text[..1] + Wrap(text[1..3]) + text[3..]
  {
    var matchText := MatchText(text, m);
    assert matchText == text[1..3];
    assert OccursAt(text, matchText, 1);
    assert !OccursAt(text, matchText, 0) by { assert text[0..2][0] == 'a'; }
    IndexOfIsFirst(text, matchText, 1);
    assert [m][1..] == [];
    assert HighlightFromLiteral(text, StepLiteral(text, text, m), []) == StepLiteral(text, text, m);
  }

  // ---------------------------------------------------------------------------
  // Rendering one result
  // ---------------------------------------------------------------------------

  /** `result.matches?.filter(m => m.key === key)`. */
  function MatchesFor(matches: Option<seq<Match>>, key: string): (r: Option<seq<Match>>)
    ensures r.Some? <==> matches.Some?
    ensures r.Some? ==> forall i :: 0 <= i < |r.value| ==> r.value[i].key == key && r.value[i] in matches.value
    ensures r.Some? ==> forall m :: m in matches.value && m.key == key ==> m in r.value
  {
    match matches
    case None => None
    case Some(ms) => Some(Filter(ms, (m: Match) => m.key == key))
  }

  /** The content preview: the first 150 characters followed by "...". */
  function Preview(content: string): (r: string)
    ensures |content| <= PreviewLength ==> r == content + "..."
    ensures |content| > PreviewLength ==> r == content[..PreviewLength] + "..."
    ensures |r| == Min(|content|, PreviewLength) + 3
  {
    Substring(content, 0, PreviewLength) + "..."
  }

  /** Filtering by key keeps the order and the copies of the matches with that key. */
  lemma MatchesForAppend(xs: seq<Match>, ys: seq<Match>, key: string)
    ensures MatchesFor(Some(xs + ys), key).value == MatchesFor(Some(xs), key).value + MatchesFor(Some(ys), key).value
  {
    FilterAppend(xs, ys, (m: Match) => m.key == key);
  }

  /** Well-formed matches: every reported match has a span. */
  predicate WellFormed(hit: Hit) {
    hit.matches.Some? ==> HasSpans(hit.matches.value)
  }

  lemma FilteredHasSpans(matches: Option<seq<Match>>, key: string)
    requires matches.Some? ==> HasSpans(matches.value)
    ensures MatchesFor(matches, key).Some? ==> HasSpans(MatchesFor(matches, key).value)
  {
  }

  /** The title as rendered: highlighted with the title matches. */
  function RenderTitle(hit: Hit): (r: string)
    requires WellFormed(hit)
    ensures (hit.matches.None? || forall m :: m in hit.matches.value ==> m.key != "title") ==> r == hit.item.title
  {
    FilteredHasSpans(hit.matches, "title");
    Highlight(hit.item.title, MatchesFor(hit.matches, "title"))
  }

  /**
   The content as rendered: the PREVIEW highlighted with the content matches,
   whose spans index the full content.
   */
  function RenderContent(hit: Hit): (r: string)
    requires WellFormed(hit)
    ensures (hit.matches.None? || forall m :: m in hit.matches.value ==> m.key != "content") ==> r == Preview(hit.item.content)
  {
    FilteredHasSpans(hit.matches, "content");
    Highlight(Preview(hit.item.content), MatchesFor(hit.matches, "content"))
  }

  /**
   A content match lying beyond the preview cuts an EMPTY text from it, and
   `replace` puts an empty `<mark>` in front of the preview.
   */
  lemma HiddenContentMatchPrependsEmptyMark(item: SearchEntry, score: real, s: int, e: int)
    requires |Preview(item.content)| <= s <= e < |item.content|
    ensures RenderContent(Hit(item, score, Some([Match("content", [Span(s, e)])])))
      == MarkOpen + MarkClose + Preview(item.content)
  {
    var preview := Preview(item.content);
    var m := Match("content", [Span(s, e)]);
    assert Filter([m], (m: Match) => m.key == "content") == [m];
    assert MatchText(preview, m) == "";
    assert OccursAt(preview, "", 0);
    StepWrapsFirstOccurrence(preview, preview, m, 0);
    HighlightOne(preview, m);
    assert preview[..0] + MarkOpen + "" + MarkClose + preview[0..] == MarkOpen + MarkClose + preview;
  }

  /** The part of the content the preview shows. */
  function Shown(content: string): nat {
    Min(|content|, PreviewLength)
  }

  /** A content match whose first span lies wholly inside the shown part of the content. */
  predicate Visible(content: string, m: Match) {
    |m.indices| > 0 && 0 <= m.indices[0].start <= m.indices[0].end < Shown(content)
  }

  /** The content rendered with only the matches the preview actually shows. */
  function RenderContentVisible(hit: Hit): (r: string)
    requires WellFormed(hit)
    ensures hit.matches.None? ==> r == Preview(hit.item.content)
  {
    FilteredHasSpans(hit.matches, "content");
    var content := hit.item.content;
    var ms := MatchesFor(hit.matches, "content");
    Highlight(Preview(content), if ms.None? then None else Some(Filter(ms.value, (m: Match) => Visible(content, m))))
  }

  /**
   With only visible matches kept, every match marks the non-empty text the
   matcher matched in the content, and with none visible the preview is
   shown unchanged.
   */
  lemma VisibleMatchesMarkMatchedText(hit: Hit)
    requires WellFormed(hit)
    ensures hit.matches.Some? ==>
      forall m :: m in hit.matches.value && m.key == "content" && Visible(hit.item.content, m) ==>
        MatchText(Preview(hit.item.content), m)
          == hit.item.content[m.indices[0].start..m.indices[0].end + 1] != ""
    ensures (hit.matches.None? || forall m :: m in hit.matches.value ==> !Visible(hit.item.content, m))
      ==> RenderContentVisible(hit) == Preview(hit.item.content)
  {
    var content := hit.item.content;
    if hit.matches.Some? {
      forall m | m in hit.matches.value && m.key == "content" && Visible(content, m)
        ensures MatchText(Preview(content), m) == content[m.indices[0].start..m.indices[0].end + 1] != ""
      {
        var s, e := m.indices[0].start, m.indices[0].end;
        var preview := Preview(content);
        assert preview[s..e + 1] == content[s..e + 1];
      }
      if forall m :: m in hit.matches.value ==> !Visible(content, m) {
        FilteredHasSpans(hit.matches, "content");
        var ms := MatchesFor(hit.matches, "content").value;
        FilterNone(ms, (m: Match) => Visible(content, m));
      }
    }
  }

  // ---------------------------------------------------------------------------
  // Overlay state
  // ---------------------------------------------------------------------------

  /**
   Where selecting a result scrolls: only when the entry has a truthy (present,
   non-empty) anchor that matches an element.
   */
  function AnchorScroll(anchor: Option<string>, lookup: string -> Option<int>, pageYOffset: int): (r: Option<int>)
    ensures r.Some? <==> anchor.Some? && anchor.value != "" && lookup(anchor.value).Some?
    ensures r.Some? ==> r.value == lookup(anchor.value).value + pageYOffset - HeaderOffset
  {
    if anchor.Some? && anchor.value != "" then ScrollToSelector(anchor.value, lookup, pageYOffset) else None
  }

  /** The `SearchOverlay` component's own state. */
  class Overlay {
    const search: SearchContext
    const matcher: string -> seq<Hit>
    var searchTerm: string
    var searchResults: seq<Hit>

    /** The results always are the gated matcher output for the current term. */
    ghost predicate Valid()
      reads this
    {
      searchResults == SearchResults(searchTerm, matcher(searchTerm))
    }

    /** Mounting: empty term, no results. */
    constructor (search: SearchContext, matcher: string -> seq<Hit>)
      ensures this.search == search && this.matcher == matcher
      ensures searchTerm == "" && searchResults == []
      ensures Valid()
    {
      this.search := search;
      this.matcher := matcher;
      searchTerm := "";
      searchResults := [];
      assert Trim("") == "";
    }

    /** Typing into the input: `setSearchTerm`, then the effect recomputes the results. */
    method SetSearchTerm(term: string)
      modifies this
      ensures searchTerm == term
      ensures searchResults == SearchResults(term, matcher(term))
      ensures Valid()
    {
      searchTerm := term;
      if Trim(searchTerm) != "" {
        var results := matcher(searchTerm);
        searchResults := results[..Min(MaxResults, |results|)];
      } else {
        searchResults := [];
      }
    }

    /**
     `handleResultClick`: scrolls to the entry's anchor when it has one that
     matches an element, then always flips the open flag and clears the term.
     */
    method HandleResultClick(result: Hit, lookup: string -> Option<int>, pageYOffset: int)
      returns (scrollTo: Option<int>)
      modifies this, search
      ensures scrollTo == AnchorScroll(result.item.anchor, lookup, pageYOffset)
      ensures search.isSearchOpen == !old(search.isSearchOpen)
      ensures searchTerm == "" && searchResults == []
      ensures Valid()
    {
      scrollTo := None;
      var anchor := result.item.anchor;
      if anchor.Some? && anchor.value != "" {
        var top := lookup(anchor.value);
        if top.Some? {
          scrollTo := Some(ScrollTarget(top.value, pageYOffset));
        }
      }
      assert scrollTo == AnchorScroll(anchor, lookup, pageYOffset);
      search.ToggleSearch();
      searchTerm := "";
      searchResults := [];
      assert Trim(searchTerm) == [];
    }

    /** The close button: `toggleSearch`. */
    method Close()
      modifies search
      ensures search.isSearchOpen == !old(search.isSearchOpen)
    {
      search.ToggleSearch();
    }
  }
}

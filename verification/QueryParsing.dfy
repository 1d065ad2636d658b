/** How a search query is read: brands, product terms and identifier terms.
    Tokenizing, stemming and the vocabularies are parameters. */
module QueryParsing {

  import opened Sql

  /** A token, or several joined. */
  type Text = string

  type Positive = n: nat | n > 0 witness 1

  datatype QueryTerm = QueryTerm(
    display: Text,
    stem: Text,
    compact: Text,
    weight: Positive,
    isIdentifier: bool,
    mustMatch: bool)

  datatype Lexicon = Lexicon(
    isDigit: char -> bool,
    isDecimal: char -> bool,
    isAlpha: char -> bool,
    stem: Text -> Text,
    compact: Text -> Text,
    brands: map<seq<Text>, Text>,
    longestBrand: nat,
    stopStems: set<Text>,
    accessories: set<Text>,
    inclusionMarkers: set<Text>,
    conjunctions: set<Text>,
    compatibilityMarkers: set<Text>,
    familyPhrases: QueryTerm -> seq<seq<Text>>)
  {
    ghost predicate Valid() {
      forall phrase | phrase in brands :: 0 < |phrase| <= longestBrand
    }
  }

  datatype ParsedQuery = ParsedQuery(terms: seq<QueryTerm>, brands: set<Text>)

  // -------------------------------------------------------- normalization

  function Joined(tokens: seq<Text>): Text {
    if tokens == [] then [] else Joined(tokens[..|tokens| - 1]) + tokens[|tokens| - 1]
  }

  /** `w` is the concatenation of at most `maxLen` consecutive tokens. */
  ghost predicate Window(tokens: seq<Text>, maxLen: nat, w: Text) {
    exists start, end | 0 <= start < end <= |tokens| && end <= start + maxLen :: w == Joined(tokens[start..end])
  }

  ghost predicate WindowFrom(tokens: seq<Text>, maxLen: nat, starts: int, w: Text) {
    exists start, end | 0 <= start < end <= |tokens| && start < starts && end <= start + maxLen :: w == Joined(tokens[start..end])
  }

  ghost function Windows(tokens: seq<Text>, maxLen: nat): (r: set<Text>)
    ensures forall w :: w in r <==> Window(tokens, maxLen, w)
  {
    set start, end | 0 <= start < end <= |tokens| && end <= start + maxLen :: Joined(tokens[start..end])
  }

  method CompactWindows(tokens: seq<Text>, maxLen: nat) returns (windows: set<Text>)
    ensures windows == Windows(tokens, maxLen)
  {
    windows := {};
    for start := 0 to |tokens|
      invariant forall w :: w in windows <==> WindowFrom(tokens, maxLen, start, w)
    {
      var here := WindowsAt(tokens, maxLen, start);
      forall w
        ensures WindowFrom(tokens, maxLen, start + 1, w)
                <==> WindowFrom(tokens, maxLen, start, w) || WindowAt(tokens, start, Bound(tokens, maxLen, start), w)
      {
        WindowsByStart(tokens, maxLen, start, w);
      }
      windows := windows + here;
    }
  }

  lemma WindowsByStart(tokens: seq<Text>, maxLen: nat, start: nat, w: Text)
    requires start < |tokens|
    ensures WindowFrom(tokens, maxLen, start + 1, w)
            <==> WindowFrom(tokens, maxLen, start, w) || WindowAt(tokens, start, Bound(tokens, maxLen, start), w)
  {
    hide Joined;
    if WindowFrom(tokens, maxLen, start + 1, w) {
      var s, e :| 0 <= s < e <= |tokens| && s < start + 1 && e <= s + maxLen && w == Joined(tokens[s..e]);
      assert s < start ==> WindowFrom(tokens, maxLen, start, w);
    }
    if WindowAt(tokens, start, Bound(tokens, maxLen, start), w) {
      var e :| start < e <= Bound(tokens, maxLen, start) && w == Joined(tokens[start..e]);
      assert e <= start + maxLen;
    }
  }

  /** The windows that start at `start` and end by `bound`. */
  ghost predicate WindowAt(tokens: seq<Text>, start: nat, bound: nat, w: Text)
    requires bound <= |tokens|
  {
    exists end | start < end <= bound :: w == Joined(tokens[start..end])
  }

  lemma OneMoreWindow(tokens: seq<Text>, start: nat, end: nat, w: Text)
    requires start <= end < |tokens|
    ensures WindowAt(tokens, start, end + 1, w) <==> WindowAt(tokens, start, end, w) || w == Joined(tokens[start..end + 1])
  {
    hide Joined;
    if WindowAt(tokens, start, end + 1, w) {
      var e :| start < e <= end + 1 && w == Joined(tokens[start..e]);
      if e <= end {
        assert WindowAt(tokens, start, end, w);
      }
    }
    if WindowAt(tokens, start, end, w) {
      var e :| start < e <= end && w == Joined(tokens[start..e]);
    }
  }

  lemma JoinedOneMore(tokens: seq<Text>, start: nat, end: nat)
    requires start <= end < |tokens|
    ensures Joined(tokens[start..end + 1]) == Joined(tokens[start..end]) + tokens[end]
  {
    assert tokens[start..end + 1][..end - start] == tokens[start..end];
  }

  method WindowsAt(tokens: seq<Text>, maxLen: nat, start: nat) returns (windows: set<Text>)
    requires start < |tokens|
    ensures forall w :: w in windows <==> WindowAt(tokens, start, Bound(tokens, maxLen, start), w)
  {
    windows := {};
    var joined: Text := [];
    for end := start to Bound(tokens, maxLen, start)
      invariant joined == Joined(tokens[start..end])
      invariant forall w :: w in windows <==> WindowAt(tokens, start, end, w)
    {
      JoinedOneMore(tokens, start, end);
      forall w
        ensures WindowAt(tokens, start, end + 1, w) <==> WindowAt(tokens, start, end, w) || w == Joined(tokens[start..end + 1])
      {
        OneMoreWindow(tokens, start, end, w);
      }
      joined := joined + tokens[end];
      windows := windows + {joined};
    }
  }

  predicate HasDigit(lex: Lexicon, token: Text) {
    exists i | 0 <= i < |token| :: lex.isDigit(token[i])
  }

  function CountIf(p: char -> bool, text: Text): nat {
    if text == [] then 0 else CountIf(p, text[..|text| - 1]) + if p(text[|text| - 1]) then 1 else 0
  }

  predicate IsStrongIdentifier(lex: Lexicon, text: Text) {
    CountIf(lex.isAlpha, text) >= 2 && CountIf(lex.isDigit, text) >= 2
  }

  predicate AllDecimal(lex: Lexicon, text: Text) {
    |text| > 0 && forall i | 0 <= i < |text| :: lex.isDecimal(text[i])
  }

  /** `2`, `2x` or `x2`. */
  predicate IsQuantity(lex: Lexicon, token: Text) {
    || AllDecimal(lex, token)
    || (|token| > 0 && token[|token| - 1] == 'x' && AllDecimal(lex, token[..|token| - 1]))
    || (|token| > 0 && token[0] == 'x' && AllDecimal(lex, token[1..]))
  }

  // --------------------------------------------------------------- brands

  /** A brand phrase that ends before word `end`. */
  datatype Span = Span(end: nat, brand: Text)

  /** Where the longest brand phrase that starts at `i` and ends by `bound` ends;
      `i` if there is none. */
  function LongestFrom(stems: seq<Text>, brands: map<seq<Text>, Text>, i: nat, bound: nat): (end: nat)
    requires i <= bound <= |stems|
    ensures i <= end <= bound && (i < end ==> stems[i..end] in brands)
    ensures forall e | end < e <= bound :: stems[i..e] !in brands
    decreases bound - i
  {
    if i == bound || stems[i..bound] in brands then bound else LongestFrom(stems, brands, i, bound - 1)
  }

  function Bound(stems: seq<Text>, longest: nat, i: nat): (r: nat)
    requires i <= |stems|
    ensures i <= r <= |stems|
  {
    if i + longest < |stems| then i + longest else |stems|
  }

  function PhraseEnd(stems: seq<Text>, lex: Lexicon, i: nat): (end: nat)
    requires i <= |stems|
    ensures i <= end <= |stems|
  {
    LongestFrom(stems, lex.brands, i, Bound(stems, lex.longestBrand, i))
  }

  /** Where the search for brands goes on after looking at `i`. */
  function After(stems: seq<Text>, lex: Lexicon, i: nat): (next: nat)
    requires i < |stems|
    ensures i < next <= |stems|
  {
    if PhraseEnd(stems, lex, i) == i then i + 1 else PhraseEnd(stems, lex, i)
  }

  function SpanAt(stems: seq<Text>, lex: Lexicon, i: nat): map<nat, Span>
    requires i < |stems|
  {
    var end := PhraseEnd(stems, lex, i);
    if end == i then map[] else map[i := Span(end, lex.brands[stems[i..end]])]
  }

  function BrandSpans(stems: seq<Text>, lex: Lexicon, i: nat): map<nat, Span>
    requires i <= |stems|
    decreases |stems| - i
  {
    if i == |stems| then map[] else SpanAt(stems, lex, i) + BrandSpans(stems, lex, After(stems, lex, i))
  }

  method LongestPhrase(stems: seq<Text>, lex: Lexicon, index: nat) returns (end: nat)
    requires index < |stems|
    ensures end == PhraseEnd(stems, lex, index)
  {
    end := Bound(stems, lex.longestBrand, index);
    while end > index && stems[index..end] !in lex.brands
      invariant index <= end <= |stems|
      invariant LongestFrom(stems, lex.brands, index, end) == PhraseEnd(stems, lex, index)
    {
      end := end - 1;
    }
  }

  method FindBrands(stems: seq<Text>, lex: Lexicon) returns (found: map<nat, Span>)
    ensures found == BrandSpans(stems, lex, 0)
  {
    found := map[];
    var index := 0;
    while index < |stems|
      invariant index <= |stems|
      invariant BrandSpans(stems, lex, 0) == found + BrandSpans(stems, lex, index)
    {
      var end := LongestPhrase(stems, lex, index);
      OneStepFurther(found, stems, lex, index);
      if end > index {
        found := found + map[index := Span(end, lex.brands[stems[index..end]])];
        index := end;
      } else {
        index := index + 1;
      }
    }
  }

  lemma OneStepFurther(found: map<nat, Span>, stems: seq<Text>, lex: Lexicon, i: nat)
    requires i < |stems|
    ensures found + BrandSpans(stems, lex, i) == (found + SpanAt(stems, lex, i)) + BrandSpans(stems, lex, After(stems, lex, i))
    ensures PhraseEnd(stems, lex, i) == i ==> found + SpanAt(stems, lex, i) == found
  {
  }

  lemma {:induction false} SpansStartHere(stems: seq<Text>, lex: Lexicon, i: nat)
    requires i <= |stems|
    ensures forall s | s in BrandSpans(stems, lex, i) :: i <= s
    decreases |stems| - i
  {
    if i < |stems| {
      SpansStartHere(stems, lex, After(stems, lex, i));
    }
  }

  lemma NoLongerPhrase(stems: seq<Text>, lex: Lexicon, i: nat, e: nat)
    requires lex.Valid() && i <= |stems| && PhraseEnd(stems, lex, i) < e <= |stems|
    ensures stems[i..e] !in lex.brands
  {
    assert |stems[i..e]| == e - i;
  }

  /** Every span is a brand phrase, no longer one starts there, and spans do not
      overlap. */
  lemma {:induction false} SpansAreBrands(stems: seq<Text>, lex: Lexicon, i: nat, s: nat)
    requires lex.Valid() && i <= |stems| && s in BrandSpans(stems, lex, i)
    ensures var span := BrandSpans(stems, lex, i)[s];
            && i <= s < span.end <= |stems|
            && stems[s..span.end] in lex.brands && span.brand == lex.brands[stems[s..span.end]]
            && (forall e | span.end < e <= |stems| :: stems[s..e] !in lex.brands)
            && (forall t | t in BrandSpans(stems, lex, i) && s < t :: span.end <= t)
    decreases |stems| - i
  {
    var next := After(stems, lex, i);
    SpansStartHere(stems, lex, next);
    if s in BrandSpans(stems, lex, next) {
      SpansAreBrands(stems, lex, next, s);
    } else {
      assert s == i && BrandSpans(stems, lex, i)[s] == SpanAt(stems, lex, i)[i];
      forall e | PhraseEnd(stems, lex, i) < e <= |stems|
        ensures stems[s..e] !in lex.brands
      {
        NoLongerPhrase(stems, lex, i, e);
      }
    }
  }

  /** No brand phrase is overlooked: wherever one starts, a span covers it. */
  lemma {:induction false} NoBrandIsOverlooked(stems: seq<Text>, lex: Lexicon, i: nat, at: nat, end: nat) returns (s: nat)
    requires lex.Valid() && i <= at < end <= |stems| && stems[at..end] in lex.brands
    ensures s in BrandSpans(stems, lex, i) && s <= at < BrandSpans(stems, lex, i)[s].end
    decreases |stems| - i
  {
    var next := After(stems, lex, i);
    SpansStartHere(stems, lex, next);
    if at < next {
      s := i;
      if at == i && PhraseEnd(stems, lex, i) < end {
        NoLongerPhrase(stems, lex, i, end);
      }
    } else {
      s := NoBrandIsOverlooked(stems, lex, next, at, end);
    }
  }

  function BrandsOf(spans: map<nat, Span>): set<Text> {
    set s | s in spans :: spans[s].brand
  }

  // -------------------------------------------------------------- parsing

  /** A whitespace-separated piece of the query and its tokens. */
  datatype Chunk = Chunk(display: Text, tokens: seq<Text>)

  datatype Item = Item(display: Text, text: Text, isIdentifier: bool)

  predicate Numbered(lex: Lexicon, chunk: Chunk) {
    exists i | 0 <= i < |chunk.tokens| :: HasDigit(lex, chunk.tokens[i])
  }

  function Words(lex: Lexicon, tokens: seq<Text>): seq<Item> {
    if tokens == [] then []
    else
      var n := |tokens| - 1;
      Words(lex, tokens[..n]) + [Item(tokens[n], lex.stem(tokens[n]), false)]
  }

  /** A chunk with a digit stays one identifier; any other is split up. */
  function ItemsOf(lex: Lexicon, chunk: Chunk): seq<Item> {
    if Numbered(lex, chunk) then [Item(chunk.display, Joined(chunk.tokens), true)] else Words(lex, chunk.tokens)
  }

  function Items(lex: Lexicon, chunks: seq<Chunk>): seq<Item> {
    if chunks == [] then []
    else var n := |chunks| - 1; Items(lex, chunks[..n]) + ItemsOf(lex, chunks[n])
  }

  function Texts(items: seq<Item>): (r: seq<Text>)
    ensures |r| == |items| && forall i | 0 <= i < |items| :: r[i] == items[i].text
  {
    seq(|items|, i requires 0 <= i < |items| => items[i].text)
  }

  /** Only plain words can be brand names. */
  predicate Plain(items: seq<Item>, start: nat, end: nat) {
    end <= |items| && forall i | start <= i < end :: !items[i].isIdentifier
  }

  predicate InBrand(items: seq<Item>, spans: map<nat, Span>, i: nat) {
    exists s | s in spans :: s <= i < spans[s].end && Plain(items, s, spans[s].end)
  }

  function QueryBrands(items: seq<Item>, spans: map<nat, Span>): set<Text> {
    set s | s in spans && Plain(items, s, spans[s].end) :: spans[s].brand
  }

  function WordCount(items: seq<Item>): nat {
    if items == [] then 0
    else WordCount(items[..|items| - 1]) + if items[|items| - 1].isIdentifier then 0 else 1
  }

  function TermOf(lex: Lexicon, item: Item): QueryTerm {
    QueryTerm(
      item.display,
      item.text,
      if item.isIdentifier then item.text else lex.compact(item.display),
      if !item.isIdentifier then 1 else if IsStrongIdentifier(lex, item.text) then 3 else 2,
      item.isIdentifier,
      item.isIdentifier)
  }

  predicate IsTerm(lex: Lexicon, items: seq<Item>, spans: map<nat, Span>, i: nat)
    requires i < |items|
  {
    && !InBrand(items, spans, i)
    && (items[i].isIdentifier || items[i].text !in lex.stopStems || WordCount(items) <= 1)
  }

  /** The terms among the first `n` items. */
  function Terms(lex: Lexicon, items: seq<Item>, spans: map<nat, Span>, n: nat): seq<QueryTerm>
    requires n <= |items|
  {
    if n == 0 then []
    else
      Terms(lex, items, spans, n - 1) + if IsTerm(lex, items, spans, n - 1) then [TermOf(lex, items[n - 1])] else []
  }

  function Parsed(lex: Lexicon, chunks: seq<Chunk>): ParsedQuery {
    var items := Items(lex, chunks);
    var spans := BrandSpans(Texts(items), lex, 0);
    ParsedQuery(Terms(lex, items, spans, |items|), QueryBrands(items, spans))
  }

  method SplitChunks(lex: Lexicon, chunks: seq<Chunk>) returns (items: seq<Item>)
    ensures items == Items(lex, chunks)
  {
    items := [];
    for c := 0 to |chunks|
      invariant items == Items(lex, chunks[..c])
    {
      assert chunks[..c + 1][..c] == chunks[..c];
      var chunk := chunks[c];
      if chunk.tokens == [] {
        continue;
      }
      if Numbered(lex, chunk) {
        items := items + [Item(chunk.display, Joined(chunk.tokens), true)];
      } else {
        for t := 0 to |chunk.tokens|
          invariant items == Items(lex, chunks[..c]) + Words(lex, chunk.tokens[..t])
        {
          assert chunk.tokens[..t + 1][..t] == chunk.tokens[..t];
          items := items + [Item(chunk.tokens[t], lex.stem(chunk.tokens[t]), false)];
        }
        assert chunk.tokens[..|chunk.tokens|] == chunk.tokens;
      }
    }
    assert chunks[..|chunks|] == chunks;
  }

  method CountWords(items: seq<Item>) returns (words: nat)
    ensures words == WordCount(items)
  {
    words := 0;
    for i := 0 to |items|
      invariant words == WordCount(items[..i])
    {
      assert items[..i + 1][..i] == items[..i];
      words := words + if items[i].isIdentifier then 0 else 1;
    }
    assert items[..|items|] == items;
  }

  method CollectTerms(lex: Lexicon, items: seq<Item>, spans: map<nat, Span>) returns (terms: seq<QueryTerm>)
    ensures terms == Terms(lex, items, spans, |items|)
  {
    var words := CountWords(items);
    terms := [];
    for i := 0 to |items|
      invariant terms == Terms(lex, items, spans, i)
    {
      if InBrand(items, spans, i) {
        continue;
      }
      if !items[i].isIdentifier && items[i].text in lex.stopStems && words > 1 {
        continue;
      }
      terms := terms + [TermOf(lex, items[i])];
    }
  }

  method ParseQuery(lex: Lexicon, chunks: seq<Chunk>) returns (parsed: ParsedQuery)
    ensures parsed == Parsed(lex, chunks)
  {
    var items := SplitChunks(lex, chunks);
    var spans := FindBrands(Texts(items), lex);
    var terms := CollectTerms(lex, items, spans);
    parsed := ParsedQuery(terms, QueryBrands(items, spans));
  }

  // ----------------------------------------------------------------- laws

  /** What every term looks like. */
  ghost predicate WellFormed(term: QueryTerm) {
    && term.mustMatch == term.isIdentifier
    && 1 <= term.weight <= 3
    && (term.isIdentifier <==> term.weight >= 2)
    && (term.isIdentifier ==> term.compact == term.stem)
  }

  lemma {:induction false} TermsAreWellFormed(lex: Lexicon, items: seq<Item>, spans: map<nat, Span>, n: nat)
    requires n <= |items|
    ensures forall t | t in Terms(lex, items, spans, n) :: WellFormed(t)
  {
    if n > 0 {
      TermsAreWellFormed(lex, items, spans, n - 1);
    }
  }

  lemma {:induction false} IdentifierItemBecomesTerm(lex: Lexicon, items: seq<Item>, spans: map<nat, Span>, n: nat, i: nat)
    requires i < n <= |items| && items[i].isIdentifier
    ensures TermOf(lex, items[i]) in Terms(lex, items, spans, n)
  {
    if i < n - 1 {
      IdentifierItemBecomesTerm(lex, items, spans, n - 1, i);
    }
  }

  lemma {:induction false} NumberedChunkBecomesItem(lex: Lexicon, chunks: seq<Chunk>, c: nat)
    requires c < |chunks| && Numbered(lex, chunks[c])
    ensures Item(chunks[c].display, Joined(chunks[c].tokens), true) in Items(lex, chunks)
  {
    if c < |chunks| - 1 {
      NumberedChunkBecomesItem(lex, chunks[..|chunks| - 1], c);
    }
  }

  /** A part of the query with a digit in it is never dropped, split or taken for
      a brand: it is a term that must match, in its compact form. */
  lemma IdentifiersAreAlwaysRequired(lex: Lexicon, chunks: seq<Chunk>, c: nat)
    requires c < |chunks| && Numbered(lex, chunks[c])
    ensures exists t | t in Parsed(lex, chunks).terms ::
              t.mustMatch && t.isIdentifier && t.compact == Joined(chunks[c].tokens) && t.weight >= 2
  {
    var items, item := Items(lex, chunks), Item(chunks[c].display, Joined(chunks[c].tokens), true);
    NumberedChunkBecomesItem(lex, chunks, c);
    var i :| 0 <= i < |items| && items[i] == item;
    IdentifierItemBecomesTerm(lex, items, BrandSpans(Texts(items), lex, 0), |items|, i);
  }
}

/** What a parsed query consists of, item by item and character by character. */
module QueryLaws {

  import opened Sql
  import opened QueryParsing

  // ----------------------------------------------------------- characters

  /** Joining is concatenation, in order. */
  lemma {:induction false} JoinedConcatenates(a: seq<Text>, b: seq<Text>, t: Text)
    ensures Joined(a + b) == Joined(a) + Joined(b) && Joined([t]) == t
  {
    assert [t][..0] == [];
    if b == [] {
      assert a + b == a;
    } else {
      var n := |b| - 1;
      JoinedConcatenates(a, b[..n], t);
      assert (a + b)[..|a| + n] == a + b[..n];
    }
  }

  /** One to `maxLen` tokens in a row, and no others, are a window. */
  lemma WindowIff(tokens: seq<Text>, maxLen: nat, w: Text)
    ensures w in Windows(tokens, maxLen) <==>
            exists start, end | 0 <= start && end <= |tokens| && 1 <= end - start <= maxLen :: w == Joined(tokens[start..end])
  {
    hide Joined;
    if Window(tokens, maxLen, w) {
      var start, end :| 0 <= start < end <= |tokens| && end <= start + maxLen && w == Joined(tokens[start..end]);
      assert 1 <= end - start <= maxLen;
    }
  }

  ghost predicate Decimals(lex: Lexicon, digits: Text) {
    digits != "" && forall i | 0 <= i < |digits| :: lex.isDecimal(digits[i])
  }

  /** A quantity is a number, or one with an "x" before or behind it. */
  lemma QuantityIff(lex: Lexicon, token: Text)
    ensures IsQuantity(lex, token) <==>
            exists digits :: Decimals(lex, digits) && (token == digits || token == digits + "x" || token == "x" + digits)
  {
    var n := |token|;
    if AllDecimal(lex, token) {
      assert Decimals(lex, token);
    } else if n > 0 && token[n - 1] == 'x' && AllDecimal(lex, token[..n - 1]) {
      assert Decimals(lex, token[..n - 1]) && token == token[..n - 1] + "x";
    } else if n > 0 && token[0] == 'x' && AllDecimal(lex, token[1..]) {
      assert Decimals(lex, token[1..]) && token == "x" + token[1..];
    }
    if digits :| Decimals(lex, digits) && (token == digits || token == digits + "x" || token == "x" + digits) {
      assert (digits + "x")[..|digits|] == digits && ("x" + digits)[1..] == digits;
    }
  }

  ghost function Where(p: char -> bool, text: Text): set<int> {
    set i | 0 <= i < |text| && p(text[i])
  }

  lemma {:induction false} CountIfCounts(p: char -> bool, text: Text)
    ensures CountIf(p, text) == |Where(p, text)|
  {
    if text == [] {
      assert Where(p, text) == {};
    } else {
      var n := |text| - 1;
      CountIfCounts(p, text[..n]);
      assert Where(p, text) == Where(p, text[..n]) + if p(text[n]) then {n} else {};
    }
  }

  /** A strong identifier has two letters and two digits at least. */
  lemma StrongIff(lex: Lexicon, text: Text)
    ensures IsStrongIdentifier(lex, text) <==> |Where(lex.isAlpha, text)| >= 2 && |Where(lex.isDigit, text)| >= 2
  {
    CountIfCounts(lex.isAlpha, text);
    CountIfCounts(lex.isDigit, text);
  }

  // ---------------------------------------------------------------- items

  ghost predicate HasSomeDigit(lex: Lexicon, tokens: seq<Text>) {
    exists t, i | 0 <= t < |tokens| && 0 <= i < |tokens[t]| :: lex.isDigit(tokens[t][i])
  }

  lemma NumberedIff(lex: Lexicon, chunk: Chunk)
    ensures Numbered(lex, chunk) <==> HasSomeDigit(lex, chunk.tokens)
  {
    if t, i :| 0 <= t < |chunk.tokens| && 0 <= i < |chunk.tokens[t]| && lex.isDigit(chunk.tokens[t][i]) {
      assert HasDigit(lex, chunk.tokens[t]);
    }
  }

  lemma {:induction false} WordsAre(lex: Lexicon, tokens: seq<Text>)
    ensures |Words(lex, tokens)| == |tokens|
    ensures forall t | 0 <= t < |tokens| :: Words(lex, tokens)[t] == Item(tokens[t], lex.stem(tokens[t]), false)
  {
    if tokens != [] {
      WordsAre(lex, tokens[..|tokens| - 1]);
    }
  }

  lemma {:induction false} ItemsPrefix(lex: Lexicon, chunks: seq<Chunk>, c: nat)
    requires c <= |chunks|
    ensures Items(lex, chunks[..c]) <= Items(lex, chunks)
  {
    hide ItemsOf;
    if c < |chunks| {
      ItemsPrefix(lex, chunks[..|chunks| - 1], c);
      assert chunks[..|chunks| - 1][..c] == chunks[..c];
    } else {
      assert chunks[..c] == chunks;
    }
  }

  lemma ItemsAppend(lex: Lexicon, chunks: seq<Chunk>, chunk: Chunk)
    ensures Items(lex, chunks + [chunk]) == Items(lex, chunks) + ItemsOf(lex, chunk)
  {
    hide ItemsOf;
    assert (chunks + [chunk])[..|chunks|] == chunks;
  }

  lemma ItemsOfChunk(lex: Lexicon, chunk: Chunk)
    ensures HasSomeDigit(lex, chunk.tokens) ==> ItemsOf(lex, chunk) == [Item(chunk.display, Joined(chunk.tokens), true)]
    ensures !HasSomeDigit(lex, chunk.tokens) ==>
              && |ItemsOf(lex, chunk)| == |chunk.tokens|
              && forall t | 0 <= t < |chunk.tokens| :: ItemsOf(lex, chunk)[t] == Item(chunk.tokens[t], lex.stem(chunk.tokens[t]), false)
  {
    hide Joined, HasSomeDigit, Numbered;
    NumberedIff(lex, chunk);
    WordsAre(lex, chunk.tokens);
  }

  /** Chunk by chunk: one identifier if there is a digit anywhere in the chunk,
      and otherwise one word per token. */
  lemma ItemsFollowChunks(lex: Lexicon, chunks: seq<Chunk>, c: nat) returns (mine: seq<Item>)
    requires c < |chunks|
    ensures Items(lex, chunks[..c + 1]) == Items(lex, chunks[..c]) + mine <= Items(lex, chunks)
    ensures HasSomeDigit(lex, chunks[c].tokens) ==> mine == [Item(chunks[c].display, Joined(chunks[c].tokens), true)]
    ensures !HasSomeDigit(lex, chunks[c].tokens) ==>
              && |mine| == |chunks[c].tokens|
              && forall t | 0 <= t < |mine| :: mine[t] == Item(chunks[c].tokens[t], lex.stem(chunks[c].tokens[t]), false)
  {
    hide Items, ItemsOf, HasSomeDigit;
    mine := ItemsOf(lex, chunks[c]);
    ItemsAppend(lex, chunks[..c], chunks[c]);
    assert chunks[..c] + [chunks[c]] == chunks[..c + 1];
    ItemsPrefix(lex, chunks, c + 1);
    ItemsOfChunk(lex, chunks[c]);
  }

  // ---------------------------------------------------------------- terms

  /** The item is a word of a brand name: of a span made of words only. */
  ghost predicate NamesBrand(items: seq<Item>, spans: map<nat, Span>, i: int) {
    exists s | s in spans :: s <= i < spans[s].end <= |items| && forall j | s <= j < spans[s].end :: !items[j].isIdentifier
  }

  /** What becomes of an item: a brand word is no term, and neither is a stop word
      beside other words. */
  ghost predicate BecomesTerm(lex: Lexicon, items: seq<Item>, spans: map<nat, Span>, i: int)
    requires 0 <= i < |items|
  {
    || items[i].isIdentifier
    || (!NamesBrand(items, spans, i)
        && (items[i].text in lex.stopStems ==> |set j | 0 <= j < |items| && !items[j].isIdentifier| <= 1))
  }

  ghost predicate Describes(lex: Lexicon, term: QueryTerm, item: Item) {
    && term.display == item.display && term.stem == item.text
    && term.isIdentifier == term.mustMatch == item.isIdentifier
    && term.compact == (if item.isIdentifier then item.text else lex.compact(item.display))
    && term.weight == if !item.isIdentifier then 1
                      else if |Where(lex.isAlpha, item.text)| >= 2 && |Where(lex.isDigit, item.text)| >= 2 then 3 else 2
  }

  lemma {:induction false} WordCountCounts(items: seq<Item>)
    ensures WordCount(items) == |set j | 0 <= j < |items| && !items[j].isIdentifier|
  {
    var words := set j | 0 <= j < |items| && !items[j].isIdentifier;
    if items == [] {
      assert words == {};
    } else {
      var n := |items| - 1;
      WordCountCounts(items[..n]);
      var before := set j | 0 <= j < |items[..n]| && !items[..n][j].isIdentifier;
      assert words == before + if items[n].isIdentifier then {} else {n};
    }
  }

  lemma BrandWordIff(items: seq<Item>, spans: map<nat, Span>, i: nat)
    ensures InBrand(items, spans, i) <==> NamesBrand(items, spans, i)
  {
    if InBrand(items, spans, i) {
      var s :| s in spans && s <= i < spans[s].end && Plain(items, s, spans[s].end);
      assert s in spans && s <= i < spans[s].end <= |items| && forall j | s <= j < spans[s].end :: !items[j].isIdentifier;
    }
    if NamesBrand(items, spans, i) {
      var s :| s in spans && s <= i < spans[s].end <= |items| && forall j | s <= j < spans[s].end :: !items[j].isIdentifier;
      assert Plain(items, s, spans[s].end);
    }
  }

  lemma BecomesTermIff(lex: Lexicon, items: seq<Item>, spans: map<nat, Span>, i: nat)
    requires i < |items|
    ensures IsTerm(lex, items, spans, i) <==> BecomesTerm(lex, items, spans, i)
  {
    BrandWordIff(items, spans, i);
    WordCountCounts(items);
  }

  ghost function TermItems(lex: Lexicon, items: seq<Item>, spans: map<nat, Span>, n: nat): set<int>
    requires n <= |items|
  {
    set i | 0 <= i < n && BecomesTerm(lex, items, spans, i)
  }

  lemma TermItemsOneMore(lex: Lexicon, items: seq<Item>, spans: map<nat, Span>, n: nat)
    requires n < |items|
    ensures |TermItems(lex, items, spans, n + 1)| ==
            |TermItems(lex, items, spans, n)| + if BecomesTerm(lex, items, spans, n) then 1 else 0
  {
    hide BecomesTerm;
    assert TermItems(lex, items, spans, n + 1) ==
           TermItems(lex, items, spans, n) + if BecomesTerm(lex, items, spans, n) then {n as int} else {};
  }

  lemma TermDescribes(lex: Lexicon, item: Item)
    ensures Describes(lex, TermOf(lex, item), item)
  {
    StrongIff(lex, item.text);
  }

  lemma {:induction false} TermsOfPrefix(lex: Lexicon, items: seq<Item>, spans: map<nat, Span>, n: nat)
    requires n <= |items|
    ensures |Terms(lex, items, spans, n)| == |TermItems(lex, items, spans, n)|
    ensures forall i | 0 <= i < n && BecomesTerm(lex, items, spans, i) ::
              && |TermItems(lex, items, spans, i)| < |Terms(lex, items, spans, n)|
              && Describes(lex, Terms(lex, items, spans, n)[|TermItems(lex, items, spans, i)|], items[i])
  {
    hide BecomesTerm, IsTerm, Describes, TermOf, TermItems;
    if n == 0 {
      NoTermItems(lex, items, spans);
    } else {
      TermsOfPrefix(lex, items, spans, n - 1);
      TermItemsOneMore(lex, items, spans, n - 1);
      BecomesTermIff(lex, items, spans, n - 1);
      TermDescribes(lex, items[n - 1]);
    }
  }

  lemma NoTermItems(lex: Lexicon, items: seq<Item>, spans: map<nat, Span>)
    ensures |TermItems(lex, items, spans, 0)| == 0
  {
    assert TermItems(lex, items, spans, 0) == {};
  }

  /** A parsed query, read off its items: its terms are the items that become
      terms, in order and described in full, and its brands are those that a span
      of words names. Identifiers carry 2, or 3 when strong; words carry 1. */
  lemma ParsedIsRead(lex: Lexicon, chunks: seq<Chunk>)
    ensures var items := Items(lex, chunks);
            var spans, parsed := BrandSpans(seq(|items|, i requires 0 <= i < |items| => items[i].text), lex, 0), Parsed(lex, chunks);
            && |parsed.terms| == |TermItems(lex, items, spans, |items|)|
            && (forall i | 0 <= i < |items| && BecomesTerm(lex, items, spans, i) ::
                  && |TermItems(lex, items, spans, i)| < |parsed.terms|
                  && Describes(lex, parsed.terms[|TermItems(lex, items, spans, i)|], items[i]))
            && (forall b :: b in parsed.brands <==>
                  exists s | s in spans ::
                    && spans[s].brand == b && spans[s].end <= |items|
                    && forall j | s <= j < spans[s].end :: !items[j].isIdentifier)
  {
    hide BecomesTerm, Describes, TermItems, Items;
    var items := Items(lex, chunks);
    assert Texts(items) == seq(|items|, i requires 0 <= i < |items| => items[i].text);
    TermsOfPrefix(lex, items, BrandSpans(Texts(items), lex, 0), |items|);
  }
}

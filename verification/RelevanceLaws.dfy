/** The verdict of the relevance engine, from the title and the terms alone: what
    counts as found and for how much, when words are missing, what a title adds
    or loses, and which reason is given. */
module RelevanceLaws {

  import opened Sql
  import opened QueryParsing
  import opened QueryLaws
  import opened Relevance

  // ----------------------------------------------------- what is in a title

  ghost predicate StemIn(lex: Lexicon, raw: seq<Text>, stem: Text) {
    exists k | 0 <= k < |raw| :: lex.stem(raw[k]) == stem
  }

  ghost predicate PhraseAt(lex: Lexicon, raw: seq<Text>, phrase: seq<Text>, k: int) {
    0 <= k <= |raw| - |phrase| && forall m | 0 <= m < |phrase| :: lex.stem(raw[k + m]) == phrase[m]
  }

  ghost predicate PhraseIn(lex: Lexicon, raw: seq<Text>, phrase: seq<Text>) {
    exists k :: PhraseAt(lex, raw, phrase, k)
  }

  /** On its own: an identifier as up to four tokens run together, a word as a stem. */
  ghost predicate FoundDirectly(lex: Lexicon, raw: seq<Text>, term: QueryTerm) {
    if term.isIdentifier then Window(raw, 4, term.compact) else StemIn(lex, raw, term.stem)
  }

  /** The last plain term of the stem that has a product family. */
  ghost predicate LastFamily(lex: Lexicon, terms: seq<QueryTerm>, stem: Text, j: int) {
    && HasFamily(lex, terms, stem, j)
    && forall later | j < later < |terms| :: !HasFamily(lex, terms, stem, later)
  }

  ghost predicate HasFamily(lex: Lexicon, terms: seq<QueryTerm>, stem: Text, j: int) {
    0 <= j < |terms| && !terms[j].isIdentifier && terms[j].stem == stem && lex.familyPhrases(terms[j]) != []
  }

  /** By a phrase of a related product. */
  ghost predicate FoundRelated(lex: Lexicon, terms: seq<QueryTerm>, raw: seq<Text>, term: QueryTerm) {
    && !term.isIdentifier
    && exists j, p :: LastFamily(lex, terms, term.stem, j) && p in lex.familyPhrases(terms[j]) && PhraseIn(lex, raw, p)
  }

  function Compacts(run: seq<QueryTerm>): seq<Text> {
    seq(|run|, i requires 0 <= i < |run| => run[i].compact)
  }

  function FirstLetters(run: seq<QueryTerm>): seq<Text> {
    seq(|run|, i requires 0 <= i < |run| => if run[i].compact == "" then "" else [run[i].compact[0]])
  }

  /** Two to four terms with an identifier among them are in the title run
      together; or the initials of three to five words are a token of it. */
  ghost predicate RunMatches(raw: seq<Text>, run: seq<QueryTerm>) {
    || (2 <= |run| <= 4 && (exists i | 0 <= i < |run| :: run[i].isIdentifier) && Window(raw, 4, Joined(Compacts(run))))
    || (3 <= |run| <= 5 && (forall i | 0 <= i < |run| :: !run[i].isIdentifier) && Joined(FirstLetters(run)) in raw)
  }

  ghost predicate FoundInRun(terms: seq<QueryTerm>, raw: seq<Text>, i: int) {
    exists start, end | 0 <= start <= i < end <= |terms| :: RunMatches(raw, terms[start..end])
  }

  ghost predicate Uncovered(lex: Lexicon, terms: seq<QueryTerm>, raw: seq<Text>, i: int)
    requires 0 <= i < |terms|
  {
    !FoundDirectly(lex, raw, terms[i]) && !FoundRelated(lex, terms, raw, terms[i]) && !FoundInRun(terms, raw, i)
  }

  // --------------------------------------------------------------- product

  /** Ten tenths of its weight for a term that is found, six for one that is only
      related; a term found in a run counts once all its repetitions are. */
  ghost function Credit(lex: Lexicon, terms: seq<QueryTerm>, raw: seq<Text>, i: int): int
    requires 0 <= i < |terms|
  {
    if FoundDirectly(lex, raw, terms[i]) then 10 * terms[i].weight
    else if FoundRelated(lex, terms, raw, terms[i]) then 6 * terms[i].weight
    else if forall j | 0 <= j < |terms| && terms[j] == terms[i] :: FoundInRun(terms, raw, j) then 10 * terms[i].weight
    else 0
  }

  ghost function TotalCredit(lex: Lexicon, terms: seq<QueryTerm>, raw: seq<Text>, n: nat): int
    requires n <= |terms|
  {
    if n == 0 then 0 else TotalCredit(lex, terms, raw, n - 1) + Credit(lex, terms, raw, n - 1)
  }

  ghost function TotalWeight(terms: seq<QueryTerm>, n: nat): int
    requires n <= |terms|
  {
    if n == 0 then 0 else TotalWeight(terms, n - 1) + terms[n - 1].weight
  }

  /** `points` is 70 times the share, to the nearest integer, a half to even. */
  ghost predicate NearestShare(points: int, credit: int, weight: int) {
    var off := 10 * weight * points - 70 * credit;
    && -10 * weight <= 2 * off <= 10 * weight
    && (2 * off == 10 * weight || 2 * off == -10 * weight ==> points % 2 == 0)
  }

  lemma HitIff(lex: Lexicon, raw: seq<Text>, term: QueryTerm)
    ensures Hit(term, Windows(raw, WINDOW), Stems(lex, raw)) <==> FoundDirectly(lex, raw, term)
  {
    hide Window;
    var stems := Stems(lex, raw);
    if StemIn(lex, raw, term.stem) {
      var k :| 0 <= k < |raw| && lex.stem(raw[k]) == term.stem;
      assert stems[k] == term.stem;
    }
  }

  lemma ContainsIff(lex: Lexicon, raw: seq<Text>, phrase: seq<Text>)
    ensures Contains(Stems(lex, raw), phrase) <==> PhraseIn(lex, raw, phrase)
  {
    var stems := Stems(lex, raw);
    forall k
      ensures OccursAt(stems, phrase, k) <==> PhraseAt(lex, raw, phrase, k)
    {
      if 0 <= k <= |raw| - |phrase| {
        var here := stems[k..k + |phrase|];
        assert forall m | 0 <= m < |phrase| :: here[m] == lex.stem(raw[k + m]);
      }
    }
    if PhraseIn(lex, raw, phrase) {
      var k :| PhraseAt(lex, raw, phrase, k);
      assert OccursAt(stems, phrase, k);
    }
  }

  lemma {:induction false} RelatedPhrasesAre(lex: Lexicon, terms: seq<QueryTerm>, stem: Text)
    ensures (exists j :: LastFamily(lex, terms, stem, j)) || RelatedPhrases(lex, terms, stem) == []
    ensures forall j | LastFamily(lex, terms, stem, j) :: RelatedPhrases(lex, terms, stem) == lex.familyPhrases(terms[j])
  {
    if terms != [] {
      var n := |terms| - 1;
      var before := terms[..n];
      RelatedPhrasesAre(lex, before, stem);
      if HasFamily(lex, terms, stem, n) {
        assert LastFamily(lex, terms, stem, n);
      } else {
        forall j
          ensures LastFamily(lex, terms, stem, j) <==> LastFamily(lex, before, stem, j)
        {
          FamilyOfPrefix(lex, terms, stem, j);
        }
        assert RelatedPhrases(lex, terms, stem) == RelatedPhrases(lex, before, stem);
      }
    }
  }

  lemma FamilyOfPrefix(lex: Lexicon, terms: seq<QueryTerm>, stem: Text, j: int)
    requires terms != [] && !HasFamily(lex, terms, stem, |terms| - 1)
    ensures LastFamily(lex, terms, stem, j) <==> LastFamily(lex, terms[..|terms| - 1], stem, j)
  {
    var before := terms[..|terms| - 1];
    forall i
      ensures HasFamily(lex, terms, stem, i) <==> HasFamily(lex, before, stem, i)
    {
      assert 0 <= i < |before| ==> before[i] == terms[i];
    }
  }

  lemma RelatedIff(lex: Lexicon, terms: seq<QueryTerm>, raw: seq<Text>, term: QueryTerm)
    ensures Related(lex, terms, term, Stems(lex, raw)) <==> FoundRelated(lex, terms, raw, term)
  {
    hide Contains, PhraseIn, RelatedPhrases;
    RelatedPhrasesAre(lex, terms, term.stem);
    var phrases := RelatedPhrases(lex, terms, term.stem);
    forall p | p in phrases
      ensures Contains(Stems(lex, raw), p) <==> PhraseIn(lex, raw, p)
    {
      ContainsIff(lex, raw, p);
    }
    if Related(lex, terms, term, Stems(lex, raw)) {
      var p :| 0 <= p < |phrases| && Contains(Stems(lex, raw), phrases[p]);
      var j :| LastFamily(lex, terms, term.stem, j);
      assert phrases[p] in lex.familyPhrases(terms[j]);
    }
    if FoundRelated(lex, terms, raw, term) {
      var j, p :| LastFamily(lex, terms, term.stem, j) && p in lex.familyPhrases(terms[j]) && PhraseIn(lex, raw, p);
      assert p in phrases;
    }
  }

  lemma {:induction false} JoinedCompactsAre(run: seq<QueryTerm>)
    ensures JoinedCompacts(run) == Joined(Compacts(run)) && Initials(run) == Joined(FirstLetters(run))
  {
    if run != [] {
      var n := |run| - 1;
      JoinedCompactsAre(run[..n]);
      assert Compacts(run)[..n] == Compacts(run[..n]) && FirstLetters(run)[..n] == FirstLetters(run[..n]);
    }
  }

  lemma RunMatchesIff(terms: seq<QueryTerm>, raw: seq<Text>, start: nat, end: nat)
    requires start <= end <= |terms|
    ensures RunMatches(raw, terms[start..end]) <==>
            || (start + 2 <= end <= start + 4 && Spelled(Windows(raw, WINDOW), terms[start..end]))
            || (start + 3 <= end <= start + 5 && Initialism(raw, terms[start..end]))
  {
    hide Window, Joined;
    JoinedCompactsAre(terms[start..end]);
  }

  lemma RescuedIff(terms: seq<QueryTerm>, raw: seq<Text>, i: int)
    ensures Rescued(terms, Windows(raw, WINDOW), raw, i) <==> FoundInRun(terms, raw, i)
  {
    hide RunMatches, Spelled, Initialism, Windows;
    forall start: nat, end: nat | start <= end <= |terms|
      ensures RunMatches(raw, terms[start..end]) <==>
              || (start + 2 <= end <= start + 4 && Spelled(Windows(raw, WINDOW), terms[start..end]))
              || (start + 3 <= end <= start + 5 && Initialism(raw, terms[start..end]))
    {
      RunMatchesIff(terms, raw, start, end);
    }
  }

  lemma MissingIff(lex: Lexicon, terms: seq<QueryTerm>, raw: seq<Text>, i: int)
    requires 0 <= i < |terms|
    ensures var windows, stems := Windows(raw, WINDOW), Stems(lex, raw);
            && (Hit(terms[i], windows, stems) <==> FoundDirectly(lex, raw, terms[i]))
            && (Related(lex, terms, terms[i], stems) <==> FoundRelated(lex, terms, raw, terms[i]))
            && (Missing(lex, terms, terms[i], windows, stems) && !Rescued(terms, windows, raw, i) <==> Uncovered(lex, terms, raw, i))
  {
    hide Hit, Related, FoundDirectly, FoundRelated, Rescued, FoundInRun, Windows, Stems;
    HitIff(lex, raw, terms[i]);
    RelatedIff(lex, terms, raw, terms[i]);
    RescuedIff(terms, raw, i);
  }

  // A listing's terms that nothing accounts for, as the engine collects them.
  lemma {:induction false} StillHolds(lex: Lexicon, terms: seq<QueryTerm>, raw: seq<Text>, n: nat, t: QueryTerm)
    requires n <= |terms|
    ensures t in Still(lex, terms, Windows(raw, WINDOW), raw, n) <==>
            exists j | 0 <= j < n :: terms[j] == t && Uncovered(lex, terms, raw, j)
  {
    hide Uncovered, Missing, Rescued, Windows;
    if n > 0 {
      StillHolds(lex, terms, raw, n - 1, t);
      MissingIff(lex, terms, raw, n - 1);
    }
  }

  lemma WeightOutsideAppend(terms: seq<QueryTerm>, term: QueryTerm, others: seq<QueryTerm>)
    ensures WeightOutside(terms + [term], others) == WeightOutside(terms, others) + if term in others then 0 else term.weight
  {
    assert (terms + [term])[..|terms|] == terms;
  }

  lemma CreditOf(lex: Lexicon, terms: seq<QueryTerm>, raw: seq<Text>, i: nat)
    requires i < |terms|
    ensures var windows, stems, still := Windows(raw, WINDOW), Stems(lex, raw), Still(lex, terms, Windows(raw, WINDOW), raw, |terms|);
            Credit(lex, terms, raw, i) ==
            if Hit(terms[i], windows, stems) then 10 * terms[i].weight
            else if Related(lex, terms, terms[i], stems) then 6 * terms[i].weight
            else if terms[i] in still then 0 else 10 * terms[i].weight
  {
    hide Hit, Related, FoundDirectly, FoundRelated, FoundInRun, Rescued, Windows, Stems, Still, Missing;
    MissingIff(lex, terms, raw, i);
    StillHolds(lex, terms, raw, |terms|, terms[i]);
  }

  lemma {:induction false} CreditsAddUp(lex: Lexicon, terms: seq<QueryTerm>, raw: seq<Text>, n: nat)
    requires n <= |terms|
    ensures var windows, stems, still := Windows(raw, WINDOW), Stems(lex, raw), Still(lex, terms, Windows(raw, WINDOW), raw, |terms|);
            TotalCredit(lex, terms, raw, n) ==
            Tenths(lex, terms, windows, stems, n) + 10 * WeightOutside(MissingAmong(lex, terms, windows, stems, n), still)
  {
    hide Hit, Related, Credit, Windows, Stems, Still, WeightOutside;
    var windows, stems, still := Windows(raw, WINDOW), Stems(lex, raw), Still(lex, terms, Windows(raw, WINDOW), raw, |terms|);
    if n == 0 {
      NoWeight(still);
    } else {
      CreditsAddUp(lex, terms, raw, n - 1);
      CreditOf(lex, terms, raw, n - 1);
      WeightOutsideAppend(MissingAmong(lex, terms, windows, stems, n - 1), terms[n - 1], still);
      var before := MissingAmong(lex, terms, windows, stems, n - 1);
      assert before + [] == before;
    }
  }

  lemma {:induction false} WeightsAddUp(terms: seq<QueryTerm>, n: nat)
    requires n <= |terms|
    ensures Weight(terms[..n]) == TotalWeight(terms, n)
  {
    if n > 0 {
      WeightsAddUp(terms, n - 1);
      assert terms[..n][..n - 1] == terms[..n - 1];
    }
  }

  lemma RoundingIsNearest(a: int, b: int)
    requires b > 0
    ensures var off := b * RoundHalfEven(a, b) - a;
            -b <= 2 * off <= b && (2 * off == b || 2 * off == -b ==> RoundHalfEven(a, b) % 2 == 0)
  {
    var q, r := a / b, a % b;
    assert a == q * b + r && 0 <= r < b;
    ProductsKeepOrder(q, q, b);
  }

  /** The product points are the exact share, rounded once. */
  lemma ProductIsTheShare(lex: Lexicon, terms: seq<QueryTerm>, raw: seq<Text>)
    requires terms != []
    ensures NearestShare(Product(lex, terms, Windows(raw, WINDOW), raw), TotalCredit(lex, terms, raw, |terms|), TotalWeight(terms, |terms|))
  {
    hide Tenths, WeightOutside, MissingAmong, Still, Stems, Windows, TotalCredit, TotalWeight, RoundHalfEven;
    CreditsAddUp(lex, terms, raw, |terms|);
    WeightsAddUp(terms, |terms|);
    assert terms[..|terms|] == terms;
    RoundingIsNearest(70 * TotalCredit(lex, terms, raw, |terms|), 10 * Weight(terms));
  }

  // ---------------------------------------------------------------- phrase

  ghost predicate FirstAt(lex: Lexicon, raw: seq<Text>, stem: Text, k: int) {
    0 <= k < |raw| && lex.stem(raw[k]) == stem && forall m | 0 <= m < k :: lex.stem(raw[m]) != stem
  }

  /** The query is distinct words and the title has all of them. */
  ghost predicate AllThere(lex: Lexicon, terms: seq<QueryTerm>, raw: seq<Text>) {
    && (forall i | 0 <= i < |terms| :: !terms[i].isIdentifier && StemIn(lex, raw, terms[i].stem))
    && (forall i, j | 0 <= i < j < |terms| :: terms[i].stem != terms[j].stem)
  }

  ghost predicate Near(lex: Lexicon, terms: seq<QueryTerm>, raw: seq<Text>) {
    forall i, j, a, b | 0 <= i < |terms| && 0 <= j < |terms| && FirstAt(lex, raw, terms[i].stem, a) && FirstAt(lex, raw, terms[j].stem, b) ::
      a - b <= |terms| + 1
  }

  lemma OneMoreElement<T>(s: seq<T>, x: T)
    ensures |Elements(s + [x])| == |Elements(s)| + if x in s then 0 else 1
    ensures Distinct(s + [x]) <==> Distinct(s) && x !in s
  {
    assert Elements(s + [x]) == Elements(s) + {x};
    if Distinct(s + [x]) {
      assert forall i | 0 <= i < |s| :: s[i] == (s + [x])[i] != (s + [x])[|s|];
    }
  }

  lemma {:induction false} RepeatsAreFewer<T>(s: seq<T>)
    ensures |Elements(s)| <= |s| && (|Elements(s)| == |s| <==> Distinct(s))
  {
    if s == [] {
      assert Elements(s) == {};
    } else {
      hide Elements, Distinct;
      var n := |s| - 1;
      RepeatsAreFewer(s[..n]);
      OneMoreElement(s[..n], s[n]);
      assert s == s[..n] + [s[n]];
    }
  }

  lemma PositionsAre(lex: Lexicon, terms: seq<QueryTerm>, raw: seq<Text>, stem: Text)
    ensures var positions := Positions(terms, Stems(lex, raw));
            && (stem in positions <==> (exists i | 0 <= i < |terms| :: !terms[i].isIdentifier && terms[i].stem == stem) && StemIn(lex, raw, stem))
            && (stem in positions ==> FirstAt(lex, raw, stem, positions[stem]))
  {
    var stems := Stems(lex, raw);
    if StemIn(lex, raw, stem) {
      var k :| 0 <= k < |raw| && lex.stem(raw[k]) == stem;
      assert stems[k] == stem;
    }
    if stem in stems {
      var k := FirstIndex(stems, stem);
      assert forall m | 0 <= m < k :: stems[..k][m] == stems[m];
    }
  }

  lemma SameSizeSubset<T>(a: set<T>, b: set<T>)
    requires a <= b && |a| >= |b|
    ensures a == b
  {
    assert |b| == |a| + |b - a|;
  }

  lemma PositionsOfAll(lex: Lexicon, terms: seq<QueryTerm>, raw: seq<Text>)
    requires AllThere(lex, terms, raw)
    ensures Positions(terms, Stems(lex, raw)).Keys == Elements(TermStems(terms))
    ensures |Positions(terms, Stems(lex, raw))| == |terms|
  {
    hide StemIn, Positions, Stems;
    var positions, wanted := Positions(terms, Stems(lex, raw)), TermStems(terms);
    forall stem
      ensures stem in positions <==> stem in wanted
    {
      PositionsAre(lex, terms, raw, stem);
      if stem in wanted {
        var i :| 0 <= i < |wanted| && wanted[i] == stem;
        assert !terms[i].isIdentifier && StemIn(lex, raw, terms[i].stem);
      }
      if i :| 0 <= i < |terms| && terms[i].stem == stem {
        assert wanted[i] == stem;
      }
    }
    RepeatsAreFewer(wanted);
  }

  lemma FullPositionsAreAll(lex: Lexicon, terms: seq<QueryTerm>, raw: seq<Text>)
    requires |Positions(terms, Stems(lex, raw))| >= |terms|
    ensures AllThere(lex, terms, raw)
  {
    hide StemIn, Positions, Stems;
    var positions, wanted := Positions(terms, Stems(lex, raw)), TermStems(terms);
    forall stem | stem in positions
      ensures (exists i | 0 <= i < |terms| :: !terms[i].isIdentifier && terms[i].stem == stem) && StemIn(lex, raw, stem)
      ensures stem in Elements(wanted)
    {
      PositionsAre(lex, terms, raw, stem);
      var i :| 0 <= i < |terms| && !terms[i].isIdentifier && terms[i].stem == stem;
      assert wanted[i] == stem;
    }
    RepeatsAreFewer(wanted);
    SubsetCount(positions.Keys, Elements(wanted));
    SameSizeSubset(positions.Keys, Elements(wanted));
    forall i | 0 <= i < |terms|
      ensures !terms[i].isIdentifier && StemIn(lex, raw, terms[i].stem)
    {
      assert wanted[i] in Elements(wanted);
      var j :| 0 <= j < |terms| && !terms[j].isIdentifier && terms[j].stem == wanted[i];
      assert wanted[j] == wanted[i];
    }
    forall i, j | 0 <= i < j < |terms|
      ensures terms[i].stem != terms[j].stem
    {
      assert wanted[i] != wanted[j];
    }
  }

  /** The order bonus: nothing unless the query is distinct words that are all in
      the title; then 10 for a single word, 15 for several in a row, and 8 for
      several whose first occurrences are no further apart than their number
      and one. */
  ghost predicate EarnsBonus(lex: Lexicon, terms: seq<QueryTerm>, raw: seq<Text>, bonus: int) {
    bonus == if !AllThere(lex, terms, raw) then 0
             else if |terms| == 1 then 10
             else if PhraseIn(lex, raw, TermStems(terms)) then 15
             else if Near(lex, terms, raw) then 8
             else 0
  }

  lemma CloseIff(lex: Lexicon, terms: seq<QueryTerm>, raw: seq<Text>)
    requires AllThere(lex, terms, raw)
    ensures Close(Positions(terms, Stems(lex, raw)), |terms|) <==> Near(lex, terms, raw)
  {
    hide StemIn, Positions, Stems, AllThere;
    PositionsOfAll(lex, terms, raw);
    var positions, wanted := Positions(terms, Stems(lex, raw)), TermStems(terms);
    forall stem
      ensures stem in positions <==> stem in wanted
      ensures stem in positions ==> FirstAt(lex, raw, stem, positions[stem])
    {
      PositionsAre(lex, terms, raw, stem);
      assert stem in positions <==> stem in Elements(wanted);
    }
    if Close(positions, |terms|) {
      forall i, j, a, b | 0 <= i < |terms| && 0 <= j < |terms| && FirstAt(lex, raw, terms[i].stem, a) && FirstAt(lex, raw, terms[j].stem, b)
        ensures a - b <= |terms| + 1
      {
        assert wanted[i] in positions && wanted[j] in positions;
        FirstIsUnique(lex, raw, terms[i].stem, a, positions[wanted[i]]);
        FirstIsUnique(lex, raw, terms[j].stem, b, positions[wanted[j]]);
      }
    }
    if Near(lex, terms, raw) {
      forall s, t | s in positions && t in positions
        ensures positions[s] - positions[t] <= |terms| + 1
      {
        var i :| 0 <= i < |wanted| && wanted[i] == s;
        var j :| 0 <= j < |wanted| && wanted[j] == t;
        assert FirstAt(lex, raw, terms[i].stem, positions[s]) && FirstAt(lex, raw, terms[j].stem, positions[t]);
      }
    }
  }

  lemma FirstIsUnique(lex: Lexicon, raw: seq<Text>, stem: Text, a: int, b: int)
    requires FirstAt(lex, raw, stem, a) && FirstAt(lex, raw, stem, b)
    ensures a == b
  {
  }

  lemma BonusIsEarned(lex: Lexicon, terms: seq<QueryTerm>, raw: seq<Text>)
    requires terms != []
    ensures EarnsBonus(lex, terms, raw, PhraseBonus(terms, Positions(terms, Stems(lex, raw)), Stems(lex, raw)))
  {
    hide AllThere, Positions, Stems, Close, Near, Contains, PhraseIn;
    if AllThere(lex, terms, raw) {
      PositionsOfAll(lex, terms, raw);
      CloseIff(lex, terms, raw);
      ContainsIff(lex, raw, TermStems(terms));
    } else if |Positions(terms, Stems(lex, raw))| >= |terms| {
      FullPositionsAreAll(lex, terms, raw);
    }
  }

  // -------------------------------------------------------- contradictions

  /** Word `i` names an accessory no term of the query asks for. */
  ghost predicate NotAskedFor(lex: Lexicon, terms: seq<QueryTerm>, raw: seq<Text>, i: int) {
    && 0 <= i < |raw| && lex.stem(raw[i]) in lex.accessories
    && forall t | 0 <= t < |terms| :: terms[t].stem != lex.stem(raw[i])
  }

  /** At most four words after "with", or right after a quantity. */
  ghost predicate ThrownIn(lex: Lexicon, raw: seq<Text>, i: int)
    requires 0 <= i < |raw|
  {
    || (exists m | 0 <= m < i :: raw[m] in lex.inclusionMarkers && i <= m + 4)
    || (i >= 1 && exists digits :: Decimals(lex, digits) && raw[i - 1] in {digits, digits + "x", "x" + digits})
  }

  ghost predicate Alternates(lex: Lexicon, terms: seq<QueryTerm>, raw: seq<Text>, start: int, k: int) {
    0 <= k < |raw| && if (k - start) % 2 == 0 then NotAskedFor(lex, terms, raw, k) else raw[k] in lex.conjunctions
  }

  /** A list of accessories nobody asked for, joined by conjunctions, up to word
      `i`, of which the first is thrown in. */
  ghost predicate ListedSince(lex: Lexicon, terms: seq<QueryTerm>, raw: seq<Text>, start: int, i: int) {
    && 0 <= start <= i < |raw| && (i - start) % 2 == 0 && ThrownIn(lex, raw, start)
    && forall k | start <= k <= i :: Alternates(lex, terms, raw, start, k)
  }

  ghost predicate Listed(lex: Lexicon, terms: seq<QueryTerm>, raw: seq<Text>, i: int) {
    exists start :: ListedSince(lex, terms, raw, start, i)
  }

  /** Some accessory of the title is for sale by itself. */
  ghost predicate SellsUnasked(lex: Lexicon, terms: seq<QueryTerm>, raw: seq<Text>) {
    exists i :: NotAskedFor(lex, terms, raw, i) && !Listed(lex, terms, raw, i)
  }

  lemma UnaskedIff(lex: Lexicon, terms: seq<QueryTerm>, raw: seq<Text>, i: int)
    ensures NotAskedFor(lex, terms, raw, i) <==> Unrequested(lex, raw, Requested(terms), i)
  {
    if 0 <= i < |raw| && NotAskedFor(lex, terms, raw, i) {
      forall t | t in terms
        ensures t.stem != lex.stem(raw[i])
      {
        var n :| 0 <= n < |terms| && terms[n] == t;
        assert terms[n].stem != lex.stem(raw[i]);
      }
    }
    if Unrequested(lex, raw, Requested(terms), i) {
      forall t | 0 <= t < |terms|
        ensures terms[t].stem != lex.stem(raw[i])
      {
        assert terms[t] in terms && terms[t].stem in Requested(terms);
      }
    }
  }

  lemma ThrownInIff(lex: Lexicon, raw: seq<Text>, i: int)
    requires 0 <= i < |raw|
    ensures ThrownIn(lex, raw, i) <==> Included(lex, raw, i) || (i > 0 && IsQuantity(lex, raw[i - 1]))
  {
    hide IsQuantity, Decimals;
    if i >= 1 {
      QuantityIff(lex, raw[i - 1]);
    }
  }

  lemma {:induction false} ExcusedIffListed(lex: Lexicon, terms: seq<QueryTerm>, raw: seq<Text>, i: int)
    ensures Excused(lex, raw, Requested(terms), i) <==> Listed(lex, terms, raw, i)
    decreases i
  {
    hide ThrownIn, NotAskedFor, Listed, Unrequested, Included, IsQuantity, Requested;
    UnaskedIff(lex, terms, raw, i);
    ListedIff(lex, terms, raw, i);
    if 0 <= i < |raw| {
      ThrownInIff(lex, raw, i);
      if i > 1 {
        ExcusedIffListed(lex, terms, raw, i - 2);
      }
    }
  }

  lemma ListedIff(lex: Lexicon, terms: seq<QueryTerm>, raw: seq<Text>, i: int)
    ensures NotAskedFor(lex, terms, raw, i) ==> 0 <= i < |raw|
    ensures Listed(lex, terms, raw, i) <==>
            && NotAskedFor(lex, terms, raw, i)
            && (ThrownIn(lex, raw, i) || (i > 1 && raw[i - 1] in lex.conjunctions && Listed(lex, terms, raw, i - 2)))
  {
    hide ThrownIn;
    if start :| ListedSince(lex, terms, raw, start, i) {
      assert Alternates(lex, terms, raw, start, i);
      if start < i {
        assert Alternates(lex, terms, raw, start, i - 1);
        assert ListedSince(lex, terms, raw, start, i - 2);
      }
    }
    if NotAskedFor(lex, terms, raw, i) && ThrownIn(lex, raw, i) {
      assert ListedSince(lex, terms, raw, i, i);
    }
    if NotAskedFor(lex, terms, raw, i) && i > 1 && raw[i - 1] in lex.conjunctions {
      var before := i - 2;
      if start :| ListedSince(lex, terms, raw, start, before) {
        assert ListedSince(lex, terms, raw, start, i);
      }
    }
  }

  lemma SellsIff(lex: Lexicon, terms: seq<QueryTerm>, raw: seq<Text>)
    ensures SellsAccessory(lex, raw, Requested(terms)) <==> SellsUnasked(lex, terms, raw)
  {
    hide Unrequested, Excused, NotAskedFor, Listed, Requested;
    forall i
      ensures NotAskedFor(lex, terms, raw, i) <==> Unrequested(lex, raw, Requested(terms), i)
      ensures NotAskedFor(lex, terms, raw, i) ==> 0 <= i < |raw|
      ensures Excused(lex, raw, Requested(terms), i) <==> Listed(lex, terms, raw, i)
    {
      UnaskedIff(lex, terms, raw, i);
      ListedIff(lex, terms, raw, i);
      ExcusedIffListed(lex, terms, raw, i);
    }
    if SellsUnasked(lex, terms, raw) {
      var i :| NotAskedFor(lex, terms, raw, i) && !Listed(lex, terms, raw, i);
      assert ForSale(lex, raw, Requested(terms), i);
    }
  }

  // Markers such as "for" and "fits"; "for sale" is none.
  ghost predicate Marks(lex: Lexicon, raw: seq<Text>, m: int) {
    0 <= m < |raw| && raw[m] in lex.compatibilityMarkers && !(m + 1 < |raw| && raw[m] == "for" && raw[m + 1] == "sale")
  }

  /** The title has a plain word of the query, and all of those it has come after
      its first marker. */
  ghost predicate OnlyTarget(lex: Lexicon, terms: seq<QueryTerm>, raw: seq<Text>) {
    && (exists i | 0 <= i < |terms| :: !terms[i].isIdentifier && StemIn(lex, raw, terms[i].stem))
    && exists m | Marks(lex, raw, m) ::
         && (forall other | 0 <= other < m :: !Marks(lex, raw, other))
         && (forall i, k | 0 <= i < |terms| && !terms[i].isIdentifier && FirstAt(lex, raw, terms[i].stem, k) :: m < k)
  }

  lemma TargetIff(lex: Lexicon, terms: seq<QueryTerm>, raw: seq<Text>)
    ensures ForSomethingElse(lex, raw, Positions(terms, Stems(lex, raw))) <==> OnlyTarget(lex, terms, raw)
  {
    hide StemIn, Positions, Stems;
    var positions := Positions(terms, Stems(lex, raw));
    forall stem
      ensures stem in positions <==> (exists i | 0 <= i < |terms| :: !terms[i].isIdentifier && terms[i].stem == stem) && StemIn(lex, raw, stem)
      ensures stem in positions ==> FirstAt(lex, raw, stem, positions[stem])
    {
      PositionsAre(lex, terms, raw, stem);
    }
    assert forall m :: Marks(lex, raw, m) <==> IsMarker(lex, raw, m);
    if ForSomethingElse(lex, raw, positions) {
      TargetForward(lex, terms, raw);
    }
    if OnlyTarget(lex, terms, raw) {
      TargetBackward(lex, terms, raw);
    }
  }

  lemma TargetForward(lex: Lexicon, terms: seq<QueryTerm>, raw: seq<Text>)
    requires ForSomethingElse(lex, raw, Positions(terms, Stems(lex, raw)))
    ensures OnlyTarget(lex, terms, raw)
  {
    hide StemIn, Positions, Stems;
    var positions := Positions(terms, Stems(lex, raw));
    var s :| s in positions;
    PositionsAre(lex, terms, raw, s);
    var m :| IsMarker(lex, raw, m) && (forall i | IsMarker(lex, raw, i) :: m <= i) && forall s | s in positions :: positions[s] > m;
    assert forall other :: Marks(lex, raw, other) <==> IsMarker(lex, raw, other);
    forall i, k | 0 <= i < |terms| && !terms[i].isIdentifier && FirstAt(lex, raw, terms[i].stem, k)
      ensures m < k
    {
      FirstIsIn(lex, raw, terms[i].stem, k);
      PositionsAre(lex, terms, raw, terms[i].stem);
      FirstIsUnique(lex, raw, terms[i].stem, k, positions[terms[i].stem]);
    }
  }

  lemma FirstIsIn(lex: Lexicon, raw: seq<Text>, stem: Text, k: int)
    requires FirstAt(lex, raw, stem, k)
    ensures StemIn(lex, raw, stem)
  {
  }

  lemma TargetBackward(lex: Lexicon, terms: seq<QueryTerm>, raw: seq<Text>)
    requires OnlyTarget(lex, terms, raw)
    ensures ForSomethingElse(lex, raw, Positions(terms, Stems(lex, raw)))
  {
    hide StemIn, Positions, Stems;
    var positions := Positions(terms, Stems(lex, raw));
    var i :| 0 <= i < |terms| && !terms[i].isIdentifier && StemIn(lex, raw, terms[i].stem);
    PositionsAre(lex, terms, raw, terms[i].stem);
    assert terms[i].stem in positions;
    var m :| Marks(lex, raw, m)
             && (forall other | 0 <= other < m :: !Marks(lex, raw, other))
             && forall i, k | 0 <= i < |terms| && !terms[i].isIdentifier && FirstAt(lex, raw, terms[i].stem, k) :: m < k;
    assert forall other :: Marks(lex, raw, other) <==> IsMarker(lex, raw, other);
    forall s | s in positions
      ensures positions[s] > m
    {
      PositionsAre(lex, terms, raw, s);
      var j :| 0 <= j < |terms| && !terms[j].isIdentifier && terms[j].stem == s;
    }
    assert IsMarker(lex, raw, m);
  }

  // --------------------------------------------------------------- verdict

  /** The plain terms of the query, and those nothing in the title accounts for. */
  ghost function PlainTerms(terms: seq<QueryTerm>): set<int> {
    set i | 0 <= i < |terms| && !terms[i].mustMatch
  }

  ghost function PlainMissing(lex: Lexicon, terms: seq<QueryTerm>, raw: seq<Text>): set<int> {
    set i | 0 <= i < |terms| && !terms[i].mustMatch && Uncovered(lex, terms, raw, i)
  }

  ghost predicate RequiredMissing(lex: Lexicon, terms: seq<QueryTerm>, raw: seq<Text>, i: int) {
    0 <= i < |terms| && terms[i].mustMatch && Uncovered(lex, terms, raw, i)
  }

  ghost predicate IsStrong(lex: Lexicon, text: Text) {
    |Where(lex.isAlpha, text)| >= 2 && |Where(lex.isDigit, text)| >= 2
  }

  /** Turned down for want of a term, before the title is read any further. */
  ghost predicate TurnedDown(r: Evaluation, reason: Reason, brand: int) {
    && r.Rejected? && r.reason == reason
    && r.breakdown.phrase == r.breakdown.accessory == r.breakdown.compatibility == 0
    && r.score == if r.breakdown.product + brand < 0 then 0 else r.breakdown.product + brand
  }

  /** Scored in full: the five parts, kept between 0 and 100, against the
      threshold; a penalty is the reason before a mere low score is. */
  ghost predicate Scored(lex: Lexicon, terms: seq<QueryTerm>, raw: seq<Text>, minScore: int, r: Evaluation) {
    var b := r.breakdown;
    var sum := b.product + b.phrase + b.brand + b.accessory + b.compatibility;
    && EarnsBonus(lex, terms, raw, b.phrase)
    && b.accessory == (if SellsUnasked(lex, terms, raw) then -50 else 0)
    && b.compatibility == (if OnlyTarget(lex, terms, raw) then -50 else 0)
    && r.score == (if sum < 0 then 0 else if sum > 100 then 100 else sum)
    && (r.Accepted? <==> r.score >= minScore)
    && (r.Rejected? ==> r.reason == if SellsUnasked(lex, terms, raw) then AccessoryMismatch
                                    else if OnlyTarget(lex, terms, raw) then CompatibilityTarget
                                    else LowScore)
  }

  ghost predicate JudgedOnTerms(lex: Lexicon, terms: seq<QueryTerm>, raw: seq<Text>, brand: int, minScore: int, r: Evaluation) {
    var plain, missing := |PlainTerms(terms)|, |PlainMissing(lex, terms, raw)|;
    && r.breakdown.brand == brand
    && NearestShare(r.breakdown.product, TotalCredit(lex, terms, raw, |terms|), TotalWeight(terms, |terms|))
    && (if exists i :: RequiredMissing(lex, terms, raw, i) then
          TurnedDown(r, if exists i :: RequiredMissing(lex, terms, raw, i) && IsStrong(lex, terms[i].compact) then MissingIdentifier
                        else MissingTerms, brand)
        else if missing > (if plain < 1 then 0 else (plain - 1) / 3) then TurnedDown(r, MissingTerms, brand)
        else Scored(lex, terms, raw, minScore, r))
  }

  lemma RequiredIff(lex: Lexicon, terms: seq<QueryTerm>, raw: seq<Text>)
    ensures var still := Still(lex, terms, Windows(raw, WINDOW), raw, |terms|);
            && ((exists t | t in still :: t.mustMatch) <==> exists i :: RequiredMissing(lex, terms, raw, i))
            && ((exists t | t in still :: t.mustMatch && IsStrongIdentifier(lex, t.compact)) <==>
                exists i :: RequiredMissing(lex, terms, raw, i) && IsStrong(lex, terms[i].compact))
  {
    hide Uncovered, Still, Windows, IsStrongIdentifier, IsStrong;
    var still := Still(lex, terms, Windows(raw, WINDOW), raw, |terms|);
    forall t
      ensures t in still <==> exists j | 0 <= j < |terms| :: terms[j] == t && Uncovered(lex, terms, raw, j)
      ensures IsStrongIdentifier(lex, t.compact) <==> IsStrong(lex, t.compact)
    {
      StillHolds(lex, terms, raw, |terms|, t);
      StrongHere(lex, t.compact);
    }
    if i :| RequiredMissing(lex, terms, raw, i) {
      assert terms[i] in still;
    }
    if t :| t in still && t.mustMatch {
      var j :| 0 <= j < |terms| && terms[j] == t && Uncovered(lex, terms, raw, j);
      assert RequiredMissing(lex, terms, raw, j);
    }
    if i :| RequiredMissing(lex, terms, raw, i) && IsStrong(lex, terms[i].compact) {
      assert terms[i] in still;
    }
    if t :| t in still && t.mustMatch && IsStrongIdentifier(lex, t.compact) {
      var j :| 0 <= j < |terms| && terms[j] == t && Uncovered(lex, terms, raw, j);
      assert RequiredMissing(lex, terms, raw, j);
    }
  }

  lemma StrongHere(lex: Lexicon, text: Text)
    ensures IsStrongIdentifier(lex, text) <==> IsStrong(lex, text)
  {
    StrongIff(lex, text);
  }

  lemma {:induction false} PlainIsCounted(terms: seq<QueryTerm>)
    ensures CountPlain(terms) == |PlainTerms(terms)|
  {
    if terms == [] {
      assert PlainTerms(terms) == {};
    } else {
      var n := |terms| - 1;
      PlainIsCounted(terms[..n]);
      assert PlainTerms(terms) == PlainTerms(terms[..n]) + if terms[n].mustMatch then {} else {n};
    }
  }

  lemma MissingIsCounted(lex: Lexicon, terms: seq<QueryTerm>, raw: seq<Text>)
    ensures CountPlain(Still(lex, terms, Windows(raw, WINDOW), raw, |terms|)) == |PlainMissing(lex, terms, raw)|
  {
    hide Uncovered, Missing, Rescued, Windows, Still, Stems;
    StillIsCounted(lex, terms, Windows(raw, WINDOW), raw, |terms|);
    forall i | 0 <= i < |terms|
      ensures Missing(lex, terms, terms[i], Windows(raw, WINDOW), Stems(lex, raw)) && !Rescued(terms, Windows(raw, WINDOW), raw, i)
              <==> Uncovered(lex, terms, raw, i)
    {
      MissingIff(lex, terms, raw, i);
    }
    assert Unaccounted(lex, terms, Windows(raw, WINDOW), raw, |terms|) == PlainMissing(lex, terms, raw);
  }

  lemma TermsAreJudged(lex: Lexicon, terms: seq<QueryTerm>, raw: seq<Text>, brand: int, minScore: int)
    requires terms != []
    ensures JudgedOnTerms(lex, terms, raw, brand, minScore, TermsEvaluated(lex, terms, Windows(raw, WINDOW), raw, brand, minScore))
  {
    hide Product, NearestShare, Still, Windows, PhraseBonus, EarnsBonus, SellsAccessory, SellsUnasked, ForSomethingElse, OnlyTarget,
      Positions, Stems, Requested, RequiredMissing, PlainTerms, PlainMissing, CountPlain, IsStrongIdentifier, IsStrong, TotalCredit, TotalWeight;
    ProductIsTheShare(lex, terms, raw);
    RequiredIff(lex, terms, raw);
    PlainIsCounted(terms);
    MissingIsCounted(lex, terms, raw);
    BonusIsEarned(lex, terms, raw);
    SellsIff(lex, terms, raw);
    TargetIff(lex, terms, raw);
  }

  /** The whole verdict. `titled` and `described` are the brands of the title and
      of the description. */
  ghost predicate Judged(
    lex: Lexicon, parsed: ParsedQuery, raw: seq<Text>, titled: set<Text>, described: set<Text>, minScore: int, r: Evaluation)
  {
    if parsed.terms == [] && parsed.brands == {} then r == Rejected(0, EmptyQuery, Breakdown(0, 0, 0, 0, 0))
    else if raw == [] then r == Rejected(0, MissingTitle, Breakdown(0, 0, 0, 0, 0))
    else if parsed.brands != {} && titled != {} && titled !! parsed.brands then
      r == Rejected(15, BrandConflict, Breakdown(0, 0, 0, 0, 0))
    else if parsed.terms == [] then
      if !(titled !! parsed.brands) then r == Accepted(85, Breakdown(0, 0, 100, 0, 0))
      else if !(described !! parsed.brands) then r == Accepted(60, Breakdown(0, 0, 100, 0, 0))
      else r == Rejected(0, BrandNotMentioned, Breakdown(0, 0, 0, 0, 0))
    else
      JudgedOnTerms(lex, parsed.terms, raw, if parsed.brands == {} || !(titled !! parsed.brands) then 15 else 8, minScore, r)
  }

  lemma NothingShared<T>(a: set<T>, b: set<T>)
    ensures a !! b <==> a * b == {}
  {
    if a * b == {} {
      assert forall x | x in a :: x in b ==> x in a * b;
    }
  }

  /** The engine's verdict is the one described above, for every query, title,
      description and threshold. */
  lemma VerdictIsJudged(lex: Lexicon, parsed: ParsedQuery, raw: seq<Text>, description: seq<Text>, minScore: int)
    ensures Judged(lex, parsed, raw, TitleBrands(lex, raw), TitleBrands(lex, description), minScore,
                   Evaluated(lex, parsed, raw, description, minScore))
  {
    hide TermsEvaluated, JudgedOnTerms, TitleBrands, Windows;
    var titled, described := TitleBrands(lex, raw), TitleBrands(lex, description);
    assert (titled + described) * parsed.brands == titled * parsed.brands + described * parsed.brands;
    NothingShared(titled, parsed.brands);
    NothingShared(described, parsed.brands);
    if parsed.terms != [] {
      TermsAreJudged(lex, parsed.terms, raw, BrandPoints(parsed.brands, TitleBrands(lex, raw)), minScore);
    }
  }

  /** The brands of a text are brand phrases in it; there are some when a brand
      phrase occurs at all, and the one it starts with is among them. */
  lemma BrandsAreNamed(lex: Lexicon, raw: seq<Text>, brand: Text)
    requires lex.Valid()
    ensures brand in TitleBrands(lex, raw) ==>
              exists i: nat, j: nat :: i < j <= |raw| && Stems(lex, raw)[i..j] in lex.brands && lex.brands[Stems(lex, raw)[i..j]] == brand
    ensures (exists i: nat, j: nat :: i < j <= |raw| && Stems(lex, raw)[i..j] in lex.brands) ==> TitleBrands(lex, raw) != {}
  {
    var stems := Stems(lex, raw);
    if brand in TitleBrands(lex, raw) {
      var s :| s in BrandSpans(stems, lex, 0) && BrandSpans(stems, lex, 0)[s].brand == brand;
      SpansAreBrands(stems, lex, 0, s);
    }
    if i: nat, j: nat :| i < j <= |raw| && stems[i..j] in lex.brands {
      var s := NoBrandIsOverlooked(stems, lex, 0, i, j);
      assert BrandSpans(stems, lex, 0)[s].brand in TitleBrands(lex, raw);
    }
  }
}

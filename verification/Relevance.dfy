/** How a listing is scored against a parsed query. Weights are integers, so the
    0.6 credit for a related phrase is counted in tenths and every share is
    exact; rounding is to the nearest integer, halves to even. */
module Relevance {

  import opened Sql
  import opened QueryParsing

  const WINDOW := 4
  const PRODUCT_MAX := 70
  const PHRASE_CONTIGUOUS := 15
  const PHRASE_CLOSE := 8
  const PHRASE_SINGLE := 10
  const BRAND_TITLE := 15
  const BRAND_WEAK := 8
  const PENALTY := 50
  const INCLUSION_WINDOW := 4
  const FOR: Text := "for"
  const SALE: Text := "sale"

  datatype Reason =
    | EmptyQuery
    | MissingTitle
    | BrandConflict
    | BrandNotMentioned
    | MissingIdentifier
    | MissingTerms
    | AccessoryMismatch
    | CompatibilityTarget
    | LowScore

  datatype Breakdown = Breakdown(product: int, phrase: int, brand: int, accessory: int, compatibility: int) {
    function Sum(): int {
      product + phrase + brand + accessory + compatibility
    }
  }

  datatype Evaluation = Accepted(score: int, breakdown: Breakdown) | Rejected(score: int, reason: Reason, breakdown: Breakdown)

  function OnlyBrand(points: int): Breakdown {
    Breakdown(0, 0, points, 0, 0)
  }

  function Stems(lex: Lexicon, raw: seq<Text>): (r: seq<Text>)
    ensures |r| == |raw| && forall i | 0 <= i < |raw| :: r[i] == lex.stem(raw[i])
  {
    seq(|raw|, i requires 0 <= i < |raw| => lex.stem(raw[i]))
  }

  // ------------------------------------------------------------- coverage

  predicate OccursAt(stems: seq<Text>, phrase: seq<Text>, i: int) {
    0 <= i <= |stems| - |phrase| && stems[i..i + |phrase|] == phrase
  }

  predicate Contains(stems: seq<Text>, phrase: seq<Text>) {
    exists i | 0 <= i <= |stems| :: OccursAt(stems, phrase, i)
  }

  /** The related phrases of a stem: those of the last plain term with that stem
      that has any. */
  function RelatedPhrases(lex: Lexicon, terms: seq<QueryTerm>, stem: Text): seq<seq<Text>> {
    if terms == [] then []
    else
      var term := terms[|terms| - 1];
      if !term.isIdentifier && term.stem == stem && lex.familyPhrases(term) != [] then lex.familyPhrases(term)
      else RelatedPhrases(lex, terms[..|terms| - 1], stem)
  }

  predicate AnyContained(stems: seq<Text>, phrases: seq<seq<Text>>) {
    exists p | 0 <= p < |phrases| :: Contains(stems, phrases[p])
  }

  /** An identifier is one of the title's windows; a word is one of its stems. */
  predicate Hit(term: QueryTerm, windows: set<Text>, stems: seq<Text>) {
    if term.isIdentifier then term.compact in windows else term.stem in stems
  }

  predicate Related(lex: Lexicon, terms: seq<QueryTerm>, term: QueryTerm, stems: seq<Text>) {
    !term.isIdentifier && AnyContained(stems, RelatedPhrases(lex, terms, term.stem))
  }

  predicate Missing(lex: Lexicon, terms: seq<QueryTerm>, term: QueryTerm, windows: set<Text>, stems: seq<Text>) {
    !Hit(term, windows, stems) && !Related(lex, terms, term, stems)
  }

  /** Tenths of weight matched by the first `n` terms on their own. */
  function Tenths(lex: Lexicon, terms: seq<QueryTerm>, windows: set<Text>, stems: seq<Text>, n: nat): nat
    requires n <= |terms|
  {
    if n == 0 then 0
    else
      Tenths(lex, terms, windows, stems, n - 1)
      + if Hit(terms[n - 1], windows, stems) then 10 * terms[n - 1].weight
        else if Related(lex, terms, terms[n - 1], stems) then 6 * terms[n - 1].weight
        else 0
  }

  function MissingAmong(lex: Lexicon, terms: seq<QueryTerm>, windows: set<Text>, stems: seq<Text>, n: nat): seq<QueryTerm>
    requires n <= |terms|
  {
    if n == 0 then []
    else
      MissingAmong(lex, terms, windows, stems, n - 1)
      + if Missing(lex, terms, terms[n - 1], windows, stems) then [terms[n - 1]] else []
  }

  function FirstIndex(stems: seq<Text>, stem: Text): (i: nat)
    requires stem in stems
    ensures i < |stems| && stems[i] == stem && stem !in stems[..i]
  {
    if stems[0] == stem then 0 else 1 + FirstIndex(stems[1..], stem)
  }

  /** Where the title first has each plain word of the query that it has. */
  function Positions(terms: seq<QueryTerm>, stems: seq<Text>): map<Text, nat> {
    map t | t in terms && !t.isIdentifier && t.stem in stems :: t.stem := FirstIndex(stems, t.stem)
  }

  // --------------------------------------------------------------- rescue

  predicate HasIdentifier(run: seq<QueryTerm>) {
    exists i | 0 <= i < |run| :: run[i].isIdentifier
  }

  function JoinedCompacts(run: seq<QueryTerm>): Text {
    if run == [] then [] else JoinedCompacts(run[..|run| - 1]) + run[|run| - 1].compact
  }

  function Initials(run: seq<QueryTerm>): Text {
    if run == [] then []
    else
      var last := run[|run| - 1].compact;
      Initials(run[..|run| - 1]) + if last == [] then [] else last[..1]
  }

  /** `split across terms`: a model number written in several parts. */
  predicate Spelled(windows: set<Text>, run: seq<QueryTerm>) {
    HasIdentifier(run) && JoinedCompacts(run) in windows
  }

  /** Plain words whose initials are a token of the title. */
  predicate Initialism(tokens: seq<Text>, run: seq<QueryTerm>) {
    !HasIdentifier(run) && Initials(run) in tokens
  }

  /** Term `i` is in a run of `shortest` to `longest` terms that passes. */
  ghost predicate InRun(terms: seq<QueryTerm>, shortest: nat, longest: nat, passes: seq<QueryTerm> -> bool, starts: nat, i: int) {
    exists start, end | 0 <= start <= i < end <= |terms| && start < starts && start + shortest <= end <= start + longest ::
      passes(terms[start..end])
  }

  ghost predicate Rescued(terms: seq<QueryTerm>, windows: set<Text>, tokens: seq<Text>, i: int) {
    || InRun(terms, 2, 4, run => Spelled(windows, run), |terms|, i)
    || InRun(terms, 3, 5, run => Initialism(tokens, run), |terms|, i)
  }

  function Range(start: int, end: int): (r: set<int>)
    ensures forall i :: i in r <==> start <= i < end
    decreases end - start
  {
    if start >= end then {} else Range(start, end - 1) + {end - 1}
  }

  method MarkRuns(terms: seq<QueryTerm>, shortest: nat, longest: nat, passes: seq<QueryTerm> -> bool) returns (marked: set<int>)
    requires 0 < shortest
    ensures forall i :: i in marked <==> InRun(terms, shortest, longest, passes, |terms|, i)
  {
    marked := {};
    for start := 0 to |terms|
      invariant forall i :: i in marked <==> InRun(terms, shortest, longest, passes, start, i)
    {
      var here := MarkRunsFrom(terms, shortest, longest, passes, start);
      RunsByStart(terms, shortest, longest, passes, start, here);
      marked := marked + here;
    }
  }

  ghost predicate InRunFrom(terms: seq<QueryTerm>, shortest: nat, longest: nat, passes: seq<QueryTerm> -> bool, start: nat, bound: int, i: int) {
    exists end | start <= i < end <= |terms| && end < bound && start + shortest <= end <= start + longest :: passes(terms[start..end])
  }

  lemma RunsByStart(terms: seq<QueryTerm>, shortest: nat, longest: nat, passes: seq<QueryTerm> -> bool, start: nat, here: set<int>)
    requires forall i :: i in here <==> InRunFrom(terms, shortest, longest, passes, start, |terms| + 1, i)
    ensures forall i ::
              InRun(terms, shortest, longest, passes, start + 1, i) <==> InRun(terms, shortest, longest, passes, start, i) || i in here
  {
    forall i
      ensures InRun(terms, shortest, longest, passes, start + 1, i) <==> InRun(terms, shortest, longest, passes, start, i) || i in here
    {
      if InRun(terms, shortest, longest, passes, start + 1, i) {
        var s, e :| 0 <= s <= i < e <= |terms| && s < start + 1 && s + shortest <= e <= s + longest && passes(terms[s..e]);
        if s == start {
          assert InRunFrom(terms, shortest, longest, passes, start, |terms| + 1, i);
        }
      }
    }
  }

  method MarkRunsFrom(terms: seq<QueryTerm>, shortest: nat, longest: nat, passes: seq<QueryTerm> -> bool, start: nat)
    returns (marked: set<int>)
    requires 0 < shortest && start < |terms|
    ensures forall i :: i in marked <==> InRunFrom(terms, shortest, longest, passes, start, |terms| + 1, i)
  {
    marked := {};
    var end := start + shortest;
    while end <= |terms| && end <= start + longest
      invariant start < end
      invariant forall i :: i in marked <==> InRunFrom(terms, shortest, longest, passes, start, end, i)
      decreases |terms| - end
    {
      if passes(terms[start..end]) {
        marked := marked + Range(start, end);
      }
      end := end + 1;
    }
  }

  /** The terms nothing accounts for. */
  ghost function Still(lex: Lexicon, terms: seq<QueryTerm>, windows: set<Text>, raw: seq<Text>, n: nat): seq<QueryTerm>
    requires n <= |terms|
  {
    if n == 0 then []
    else
      Still(lex, terms, windows, raw, n - 1)
      + if Missing(lex, terms, terms[n - 1], windows, Stems(lex, raw)) && !Rescued(terms, windows, raw, n - 1) then [terms[n - 1]]
        else []
  }

  lemma {:induction false} MissingAmongHolds(lex: Lexicon, terms: seq<QueryTerm>, windows: set<Text>, stems: seq<Text>, n: nat)
    requires n <= |terms|
    ensures forall t :: t in MissingAmong(lex, terms, windows, stems, n) <==> t in terms[..n] && Missing(lex, terms, t, windows, stems)
  {
    if n > 0 {
      MissingAmongHolds(lex, terms, windows, stems, n - 1);
      assert terms[..n] == terms[..n - 1] + [terms[n - 1]];
    }
  }

  method RescueSplitForms(lex: Lexicon, terms: seq<QueryTerm>, missing: seq<QueryTerm>, windows: set<Text>, raw: seq<Text>)
    returns (still: seq<QueryTerm>)
    requires missing == MissingAmong(lex, terms, windows, Stems(lex, raw), |terms|)
    ensures still == Still(lex, terms, windows, raw, |terms|)
  {
    MissingAmongHolds(lex, terms, windows, Stems(lex, raw), |terms|);
    assert terms[..|terms|] == terms;
    if missing == [] {
      NothingIsStillMissing(lex, terms, windows, raw, |terms|);
      return [];
    }
    var spelled := MarkRuns(terms, 2, 4, run => Spelled(windows, run));
    var initials := MarkRuns(terms, 3, 5, run => Initialism(raw, run));
    still := [];
    for i := 0 to |terms|
      invariant still == Still(lex, terms, windows, raw, i)
    {
      assert i in spelled || i in initials <==> Rescued(terms, windows, raw, i);
      if terms[i] in missing {
        if !(i in spelled || i in initials) {
          still := still + [terms[i]];
        }
      }
    }
  }

  lemma {:induction false} NothingIsStillMissing(lex: Lexicon, terms: seq<QueryTerm>, windows: set<Text>, raw: seq<Text>, n: nat)
    requires n <= |terms|
    requires forall t | t in terms :: !Missing(lex, terms, t, windows, Stems(lex, raw))
    ensures Still(lex, terms, windows, raw, n) == []
  {
    if n > 0 {
      NothingIsStillMissing(lex, terms, windows, raw, n - 1);
    }
  }

  // -------------------------------------------------------------- weights

  function Weight(terms: seq<QueryTerm>): (w: nat)
    ensures w >= |terms|
  {
    if terms == [] then 0 else Weight(terms[..|terms| - 1]) + terms[|terms| - 1].weight
  }

  /** The weight of the terms that are not among `others`. */
  function WeightOutside(terms: seq<QueryTerm>, others: seq<QueryTerm>): nat {
    if terms == [] then 0
    else
      var last := terms[|terms| - 1];
      WeightOutside(terms[..|terms| - 1], others) + if last in others then 0 else last.weight
  }

  function CountPlain(terms: seq<QueryTerm>): nat {
    if terms == [] then 0
    else CountPlain(terms[..|terms| - 1]) + if terms[|terms| - 1].mustMatch then 0 else 1
  }

  function AllowedMissing(terms: seq<QueryTerm>): int {
    var n := (CountPlain(terms) - 1) / 3;
    if n < 0 then 0 else n
  }

  function RoundHalfEven(a: int, b: int): int
    requires b > 0
  {
    var q, r := a / b, a % b;
    if 2 * r < b then q else if 2 * r > b then q + 1 else if q % 2 == 0 then q else q + 1
  }

  /** 70 times the share of the weight that is matched. */
  function ProductPoints(tenths: nat, total: nat): int
    requires total > 0
  {
    RoundHalfEven(PRODUCT_MAX * tenths, 10 * total)
  }

  // --------------------------------------------------------------- phrase

  function TermStems(terms: seq<QueryTerm>): (r: seq<Text>)
    ensures |r| == |terms|
  {
    seq(|terms|, i requires 0 <= i < |terms| => terms[i].stem)
  }

  predicate Close(positions: map<Text, nat>, count: nat) {
    forall s, t | s in positions && t in positions :: positions[s] - positions[t] <= count + 1
  }

  function PhraseBonus(terms: seq<QueryTerm>, positions: map<Text, nat>, stems: seq<Text>): int {
    if |terms| == 0 || |positions| < |terms| then 0
    else if |terms| == 1 then PHRASE_SINGLE
    else if Contains(stems, TermStems(terms)) then PHRASE_CONTIGUOUS
    else if Close(positions, |terms|) then PHRASE_CLOSE
    else 0
  }

  // -------------------------------------------------------- contradictions

  /** Word `i` of the title names an accessory the query did not ask for. */
  predicate Unrequested(lex: Lexicon, raw: seq<Text>, requested: set<Text>, i: int) {
    0 <= i < |raw| && lex.stem(raw[i]) in lex.accessories && lex.stem(raw[i]) !in requested
  }

  predicate Included(lex: Lexicon, raw: seq<Text>, i: int) {
    exists m | 0 <= m < |raw| :: raw[m] in lex.inclusionMarkers && m < i <= m + INCLUSION_WINDOW
  }

  /** Such a word is excused when it is included ("with ..."), counted ("2x ...")
      or joined by a conjunction to an excused one. */
  predicate Excused(lex: Lexicon, raw: seq<Text>, requested: set<Text>, i: int)
    decreases i
  {
    && Unrequested(lex, raw, requested, i)
    && (|| Included(lex, raw, i)
        || (i > 0 && IsQuantity(lex, raw[i - 1]))
        || (i > 1 && raw[i - 1] in lex.conjunctions && Excused(lex, raw, requested, i - 2)))
  }

  predicate ForSale(lex: Lexicon, raw: seq<Text>, requested: set<Text>, i: int) {
    Unrequested(lex, raw, requested, i) && !Excused(lex, raw, requested, i)
  }

  /** The title sells an accessory nobody asked for. */
  ghost predicate SellsAccessory(lex: Lexicon, raw: seq<Text>, requested: set<Text>) {
    exists i | 0 <= i < |raw| :: ForSale(lex, raw, requested, i)
  }

  method UnrequestedAccessories(lex: Lexicon, raw: seq<Text>, requested: set<Text>) returns (found: seq<Text>)
    ensures found != [] <==> SellsAccessory(lex, raw, requested)
    ensures forall w | w in found :: w in raw && lex.stem(w) in lex.accessories && lex.stem(w) !in requested
  {
    var exempt: set<int> := {};
    found := [];
    for index := 0 to |raw|
      invariant forall i :: i in exempt <==> i < index && Excused(lex, raw, requested, i)
      invariant found != [] <==> exists i | 0 <= i < index :: ForSale(lex, raw, requested, i)
      invariant forall w | w in found :: w in raw && lex.stem(w) in lex.accessories && lex.stem(w) !in requested
    {
      if lex.stem(raw[index]) !in lex.accessories || lex.stem(raw[index]) in requested {
        continue;
      }
      var listed := index > 1 && raw[index - 1] in lex.conjunctions && (index - 2) in exempt;
      if Included(lex, raw, index) || (index > 0 && IsQuantity(lex, raw[index - 1])) || listed {
        exempt := exempt + {index};
        continue;
      }
      assert ForSale(lex, raw, requested, index);
      found := found + [raw[index]];
    }
  }

  predicate IsMarker(lex: Lexicon, raw: seq<Text>, i: int) {
    && 0 <= i < |raw| && raw[i] in lex.compatibilityMarkers
    && !(raw[i] == FOR && i + 1 < |raw| && raw[i + 1] == SALE)
  }

  /** Every plain word of the query that the title has comes after a marker such
      as "for" or "fits": after its first one. */
  ghost predicate ForSomethingElse(lex: Lexicon, raw: seq<Text>, positions: map<Text, nat>) {
    && positions != map[]
    && exists m | IsMarker(lex, raw, m) ::
         && (forall i | IsMarker(lex, raw, i) :: m <= i)
         && (forall s | s in positions :: positions[s] > m)
  }

  method TargetOnly(lex: Lexicon, raw: seq<Text>, positions: map<Text, nat>) returns (r: bool)
    ensures r <==> ForSomethingElse(lex, raw, positions)
  {
    for i := 0 to |raw|
      invariant forall j | 0 <= j < i :: !IsMarker(lex, raw, j)
    {
      if IsMarker(lex, raw, i) {
        return positions != map[] && forall s | s in positions :: positions[s] > i;
      }
    }
    return false;
  }

  // ----------------------------------------------------------- evaluation

  function Clamp(x: int): int {
    if x < 0 then 0 else if x > 100 then 100 else x
  }

  function NonNegative(x: int): int {
    if x < 0 then 0 else x
  }

  function Requested(terms: seq<QueryTerm>): set<Text> {
    set t | t in terms :: t.stem
  }

  function BrandPoints(queried: set<Text>, titled: set<Text>): int {
    if queried == {} || titled * queried != {} then BRAND_TITLE else BRAND_WEAK
  }

  /** What the product terms earn. */
  ghost function Product(lex: Lexicon, terms: seq<QueryTerm>, windows: set<Text>, raw: seq<Text>): int
    requires terms != []
  {
    var stems := Stems(lex, raw);
    var missing, still := MissingAmong(lex, terms, windows, stems, |terms|), Still(lex, terms, windows, raw, |terms|);
    ProductPoints(Tenths(lex, terms, windows, stems, |terms|) + 10 * WeightOutside(missing, still), Weight(terms))
  }

  ghost function FullBreakdown(lex: Lexicon, terms: seq<QueryTerm>, windows: set<Text>, raw: seq<Text>, brand: int): Breakdown
    requires terms != []
  {
    var positions := Positions(terms, Stems(lex, raw));
    Breakdown(
      Product(lex, terms, windows, raw),
      PhraseBonus(terms, positions, Stems(lex, raw)),
      brand,
      if SellsAccessory(lex, raw, Requested(terms)) then -PENALTY else 0,
      if ForSomethingElse(lex, raw, positions) then -PENALTY else 0)
  }

  function Verdict(breakdown: Breakdown, minScore: int): Evaluation {
    var score := Clamp(breakdown.Sum());
    if score >= minScore then Accepted(score, breakdown)
    else
      Rejected(
        score,
        if breakdown.accessory != 0 then AccessoryMismatch
        else if breakdown.compatibility != 0 then CompatibilityTarget
        else LowScore,
        breakdown)
  }

  ghost function TermsEvaluated(lex: Lexicon, terms: seq<QueryTerm>, windows: set<Text>, raw: seq<Text>, brand: int, minScore: int): Evaluation
    requires terms != []
  {
    var still := Still(lex, terms, windows, raw, |terms|);
    var early := Breakdown(Product(lex, terms, windows, raw), 0, brand, 0, 0);
    if exists t | t in still :: t.mustMatch then
      Rejected(
        NonNegative(early.Sum()),
        if exists t | t in still :: t.mustMatch && IsStrongIdentifier(lex, t.compact) then MissingIdentifier else MissingTerms,
        early)
    else if CountPlain(still) > AllowedMissing(terms) then Rejected(NonNegative(early.Sum()), MissingTerms, early)
    else Verdict(FullBreakdown(lex, terms, windows, raw, brand), minScore)
  }

  function BrandOnlyEvaluated(queried: set<Text>, titled: set<Text>, described: set<Text>): Evaluation {
    if (titled + described) * queried == {} then Rejected(0, BrandNotMentioned, OnlyBrand(0))
    else Accepted(if titled * queried != {} then 85 else 60, OnlyBrand(100))
  }

  function TitleBrands(lex: Lexicon, raw: seq<Text>): set<Text> {
    BrandsOf(BrandSpans(Stems(lex, raw), lex, 0))
  }

  ghost function Evaluated(lex: Lexicon, parsed: ParsedQuery, raw: seq<Text>, description: seq<Text>, minScore: int): Evaluation
  {
    var titled := TitleBrands(lex, raw);
    if parsed.terms == [] && parsed.brands == {} then Rejected(0, EmptyQuery, OnlyBrand(0))
    else if raw == [] then Rejected(0, MissingTitle, OnlyBrand(0))
    else if parsed.brands != {} && titled != {} && titled * parsed.brands == {} then Rejected(15, BrandConflict, OnlyBrand(0))
    else if parsed.terms == [] then BrandOnlyEvaluated(parsed.brands, titled, TitleBrands(lex, description))
    else TermsEvaluated(lex, parsed.terms, Windows(raw, WINDOW), raw, BrandPoints(parsed.brands, titled), minScore)
  }

  method RelatedFamilyPhrases(lex: Lexicon, terms: seq<QueryTerm>) returns (related: map<Text, seq<seq<Text>>>)
    ensures forall stem :: RelatedPhrases(lex, terms, stem) == if stem in related then related[stem] else []
  {
    related := map[];
    for i := 0 to |terms|
      invariant forall stem :: RelatedPhrases(lex, terms[..i], stem) == if stem in related then related[stem] else []
    {
      assert terms[..i + 1][..i] == terms[..i];
      if terms[i].isIdentifier {
        continue;
      }
      var phrases := lex.familyPhrases(terms[i]);
      if phrases != [] {
        related := related[terms[i].stem := phrases];
      }
    }
    assert terms[..|terms|] == terms;
  }

  lemma PositionsOfOneMore(terms: seq<QueryTerm>, stems: seq<Text>, i: nat)
    requires i < |terms|
    ensures Positions(terms[..i + 1], stems) ==
            if !terms[i].isIdentifier && terms[i].stem in stems then
              Positions(terms[..i], stems)[terms[i].stem := FirstIndex(stems, terms[i].stem)]
            else Positions(terms[..i], stems)
  {
    assert terms[..i + 1] == terms[..i] + [terms[i]];
  }

  method CoverTerms(lex: Lexicon, terms: seq<QueryTerm>, windows: set<Text>, raw: seq<Text>)
    returns (tenths: nat, positions: map<Text, nat>, missing: seq<QueryTerm>)
    ensures tenths == Tenths(lex, terms, windows, Stems(lex, raw), |terms|)
    ensures positions == Positions(terms, Stems(lex, raw))
    ensures missing == MissingAmong(lex, terms, windows, Stems(lex, raw), |terms|)
  {
    var related := RelatedFamilyPhrases(lex, terms);
    var stems := Stems(lex, raw);
    tenths, positions, missing := 0, map[], [];
    for i := 0 to |terms|
      invariant tenths == Tenths(lex, terms, windows, stems, i)
      invariant positions == Positions(terms[..i], stems)
      invariant missing == MissingAmong(lex, terms, windows, stems, i)
    {
      var term := terms[i];
      PositionsOfOneMore(terms, stems, i);
      if term.isIdentifier {
        if term.compact in windows {
          tenths := tenths + 10 * term.weight;
        } else {
          missing := missing + [term];
        }
      } else if term.stem in stems {
        tenths := tenths + 10 * term.weight;
        positions := positions[term.stem := FirstIndex(stems, term.stem)];
      } else if AnyContained(stems, if term.stem in related then related[term.stem] else []) {
        tenths := tenths + 6 * term.weight;
      } else {
        missing := missing + [term];
      }
    }
    assert terms[..|terms|] == terms;
  }

  method SumOutside(terms: seq<QueryTerm>, others: seq<QueryTerm>) returns (sum: nat)
    ensures sum == WeightOutside(terms, others)
  {
    sum := 0;
    for i := 0 to |terms|
      invariant sum == WeightOutside(terms[..i], others)
    {
      assert terms[..i + 1][..i] == terms[..i];
      if terms[i] !in others {
        sum := sum + terms[i].weight;
      }
    }
    assert terms[..|terms|] == terms;
  }

  method EvaluateTerms(lex: Lexicon, terms: seq<QueryTerm>, windows: set<Text>, raw: seq<Text>, brand: int, minScore: int)
    returns (r: Evaluation)
    requires terms != []
    ensures r == TermsEvaluated(lex, terms, windows, raw, brand, minScore)
  {
    var tenths, positions, missing := CoverTerms(lex, terms, windows, raw);
    var still := RescueSplitForms(lex, terms, missing, windows, raw);
    var rescuedWeight := SumOutside(missing, still);
    var breakdown := Breakdown(ProductPoints(tenths + 10 * rescuedWeight, Weight(terms)), 0, brand, 0, 0);
    if exists t | t in still :: t.mustMatch {
      var strong := exists t | t in still :: t.mustMatch && IsStrongIdentifier(lex, t.compact);
      return Rejected(NonNegative(breakdown.Sum()), if strong then MissingIdentifier else MissingTerms, breakdown);
    }
    if CountPlain(still) > AllowedMissing(terms) {
      return Rejected(NonNegative(breakdown.Sum()), MissingTerms, breakdown);
    }
    breakdown := breakdown.(phrase := PhraseBonus(terms, positions, Stems(lex, raw)));
    var accessories := UnrequestedAccessories(lex, raw, Requested(terms));
    if accessories != [] {
      breakdown := breakdown.(accessory := -PENALTY);
    }
    var targetOnly := TargetOnly(lex, raw, positions);
    if targetOnly {
      breakdown := breakdown.(compatibility := -PENALTY);
    }
    r := Verdict(breakdown, minScore);
  }

  /** `evaluate_relevance_v2`. */
  method Evaluate(lex: Lexicon, chunks: seq<Chunk>, raw: seq<Text>, description: seq<Text>, minScore: int) returns (r: Evaluation)
    ensures r == Evaluated(lex, Parsed(lex, chunks), raw, description, minScore)
  {
    var parsed := ParseQuery(lex, chunks);
    if parsed.terms == [] && parsed.brands == {} {
      return Rejected(0, EmptyQuery, OnlyBrand(0));
    }
    if raw == [] {
      return Rejected(0, MissingTitle, OnlyBrand(0));
    }
    var inTitle := FindBrands(Stems(lex, raw), lex);
    var inDescription := FindBrands(Stems(lex, description), lex);
    var titled, described := BrandsOf(inTitle), BrandsOf(inDescription);
    if parsed.brands != {} && titled != {} && titled * parsed.brands == {} {
      return Rejected(15, BrandConflict, OnlyBrand(0));
    }
    if parsed.terms == [] {
      return BrandOnlyEvaluated(parsed.brands, titled, described);
    }
    var windows := CompactWindows(raw, WINDOW);
    r := EvaluateTerms(lex, parsed.terms, windows, raw, BrandPoints(parsed.brands, titled), minScore);
  }

  // ----------------------------------------------------------------- laws

  /** Nothing counts twice: the terms and the rescues together weigh no more than
      the query. */
  lemma WeightOutsideOneMore(terms: seq<QueryTerm>, term: QueryTerm, others: seq<QueryTerm>)
    ensures WeightOutside(terms + [term], others) <= WeightOutside(terms, others) + term.weight
    ensures WeightOutside(terms + [], others) == WeightOutside(terms, others)
  {
    assert (terms + [term])[..|terms|] == terms;
    assert terms + [] == terms;
  }

  lemma {:induction false} MatchedWeightIsBounded(
    lex: Lexicon, terms: seq<QueryTerm>, windows: set<Text>, stems: seq<Text>, others: seq<QueryTerm>, n: nat)
    requires n <= |terms|
    ensures Tenths(lex, terms, windows, stems, n) + 10 * WeightOutside(MissingAmong(lex, terms, windows, stems, n), others)
            <= 10 * Weight(terms[..n])
  {
    hide WeightOutside, Hit, Related;
    if n == 0 {
      NoWeight(others);
    } else {
      MatchedWeightIsBounded(lex, terms, windows, stems, others, n - 1);
      assert terms[..n][..n - 1] == terms[..n - 1];
      WeightOutsideOneMore(MissingAmong(lex, terms, windows, stems, n - 1), terms[n - 1], others);
    }
  }

  lemma NoWeight(others: seq<QueryTerm>)
    ensures WeightOutside([], others) == 0
  {
  }

  lemma ProductsKeepOrder(x: int, y: int, b: int)
    requires b > 0
    ensures x <= y ==> x * b <= y * b
    ensures (x + 1) * b == x * b + b
  {
  }

  lemma QuotientIsBounded(a: int, b: int, top: int)
    requires b > 0 && 0 <= a <= top * b
    ensures 0 <= a / b <= top
    ensures a / b == top ==> a % b == 0
  {
    var q, r := a / b, a % b;
    assert a == q * b + r && 0 <= r < b;
    ProductsKeepOrder(top + 1, q, b);
    ProductsKeepOrder(top, q, b);
    ProductsKeepOrder(q, -1, b);
  }

  lemma RoundingKeepsBounds(a: int, b: int, top: int)
    requires b > 0 && 0 <= a <= top * b
    ensures 0 <= RoundHalfEven(a, b) <= top
  {
    QuotientIsBounded(a, b, top);
  }

  lemma ShareIsBounded(tenths: nat, total: nat)
    requires total > 0 && tenths <= 10 * total
    ensures 0 <= ProductPoints(tenths, total) <= PRODUCT_MAX
  {
    RoundingKeepsBounds(PRODUCT_MAX * tenths, 10 * total, PRODUCT_MAX);
  }

  lemma ProductIsBounded(lex: Lexicon, terms: seq<QueryTerm>, windows: set<Text>, raw: seq<Text>)
    requires terms != []
    ensures 0 <= Product(lex, terms, windows, raw) <= PRODUCT_MAX
  {
    hide ProductPoints, Tenths, WeightOutside, MissingAmong, Still, Stems;
    var stems := Stems(lex, raw);
    var still := Still(lex, terms, windows, raw, |terms|);
    MatchedWeightIsBounded(lex, terms, windows, stems, still, |terms|);
    assert terms[..|terms|] == terms;
    var missing := MissingAmong(lex, terms, windows, stems, |terms|);
    ShareIsBounded(Tenths(lex, terms, windows, stems, |terms|) + 10 * WeightOutside(missing, still), Weight(terms));
  }

  /** An identifier is in the title: alone, or spelled by a run of two to four
      adjacent terms, as at most four consecutive title tokens run together. */
  ghost predicate Spelt(terms: seq<QueryTerm>, raw: seq<Text>, i: nat)
    requires i < |terms|
  {
    Window(raw, WINDOW, terms[i].compact) || SpeltByRun(terms, raw, i)
  }

  ghost predicate SpeltByRun(terms: seq<QueryTerm>, raw: seq<Text>, i: nat) {
    exists start, end | 0 <= start <= i < end <= |terms| && start + 2 <= end <= start + 4 ::
      Window(raw, WINDOW, JoinedCompacts(terms[start..end]))
  }

  /** Plain terms with nothing in the title to account for them. */
  ghost function Unaccounted(lex: Lexicon, terms: seq<QueryTerm>, windows: set<Text>, raw: seq<Text>, n: nat): set<int>
    requires n <= |terms|
  {
    set i | 0 <= i < n && !terms[i].mustMatch && Missing(lex, terms, terms[i], windows, Stems(lex, raw))
            && !Rescued(terms, windows, raw, i)
  }

  lemma {:induction false} StillIsKept(lex: Lexicon, terms: seq<QueryTerm>, windows: set<Text>, raw: seq<Text>, n: nat, i: nat)
    requires i < n <= |terms|
    requires Missing(lex, terms, terms[i], windows, Stems(lex, raw)) && !Rescued(terms, windows, raw, i)
    ensures terms[i] in Still(lex, terms, windows, raw, n)
  {
    hide Missing, Rescued;
    if i < n - 1 {
      StillIsKept(lex, terms, windows, raw, n - 1, i);
    }
  }

  lemma UnaccountedOneMore(lex: Lexicon, terms: seq<QueryTerm>, windows: set<Text>, raw: seq<Text>, n: nat)
    requires n < |terms|
    ensures var counts := !terms[n].mustMatch && Missing(lex, terms, terms[n], windows, Stems(lex, raw)) && !Rescued(terms, windows, raw, n);
            |Unaccounted(lex, terms, windows, raw, n + 1)| == |Unaccounted(lex, terms, windows, raw, n)| + if counts then 1 else 0
  {
    hide Missing, Rescued;
    var counts := !terms[n].mustMatch && Missing(lex, terms, terms[n], windows, Stems(lex, raw)) && !Rescued(terms, windows, raw, n);
    assert Unaccounted(lex, terms, windows, raw, n + 1) == Unaccounted(lex, terms, windows, raw, n) + if counts then {n} else {};
  }

  lemma CountPlainOneMore(terms: seq<QueryTerm>, term: QueryTerm)
    ensures CountPlain(terms + [term]) == CountPlain(terms) + if term.mustMatch then 0 else 1
    ensures CountPlain(terms + []) == CountPlain(terms)
  {
    assert (terms + [term])[..|terms|] == terms;
    assert terms + [] == terms;
  }

  lemma NothingIsCounted(lex: Lexicon, terms: seq<QueryTerm>, windows: set<Text>, raw: seq<Text>)
    ensures CountPlain([]) == |Unaccounted(lex, terms, windows, raw, 0)| == 0
  {
    assert Unaccounted(lex, terms, windows, raw, 0) == {};
  }

  lemma {:induction false} StillIsCounted(lex: Lexicon, terms: seq<QueryTerm>, windows: set<Text>, raw: seq<Text>, n: nat)
    requires n <= |terms|
    ensures CountPlain(Still(lex, terms, windows, raw, n)) == |Unaccounted(lex, terms, windows, raw, n)|
  {
    hide Missing, Rescued, Unaccounted, CountPlain, Stems;
    if n == 0 {
      NothingIsCounted(lex, terms, windows, raw);
    } else {
      StillIsCounted(lex, terms, windows, raw, n - 1);
      UnaccountedOneMore(lex, terms, windows, raw, n - 1);
      CountPlainOneMore(Still(lex, terms, windows, raw, n - 1), terms[n - 1]);
    }
  }

  lemma InitialismsHaveNoIdentifier(terms: seq<QueryTerm>, raw: seq<Text>, i: nat)
    requires i < |terms| && InRun(terms, 3, 5, run => Initialism(raw, run), |terms|, i)
    ensures !terms[i].isIdentifier
  {
    var s, e :| 0 <= s <= i < e <= |terms| && s + 3 <= e <= s + 5 && Initialism(raw, terms[s..e]);
    assert terms[s..e][i - s] == terms[i];
  }

  lemma SpelledRunsAreWindows(terms: seq<QueryTerm>, raw: seq<Text>, i: nat)
    requires InRun(terms, 2, 4, run => Spelled(Windows(raw, WINDOW), run), |terms|, i)
    ensures SpeltByRun(terms, raw, i)
  {
    var s, e :| 0 <= s <= i < e <= |terms| && s + 2 <= e <= s + 4 && Spelled(Windows(raw, WINDOW), terms[s..e]);
    assert JoinedCompacts(terms[s..e]) in Windows(raw, WINDOW);
  }

  lemma RescuedIdentifierIsSpelt(terms: seq<QueryTerm>, raw: seq<Text>, i: nat)
    requires i < |terms| && terms[i].isIdentifier
    requires terms[i].compact in Windows(raw, WINDOW) || Rescued(terms, Windows(raw, WINDOW), raw, i)
    ensures Spelt(terms, raw, i)
  {
    var windows := Windows(raw, WINDOW);
    if terms[i].compact !in windows {
      if InRun(terms, 2, 4, run => Spelled(windows, run), |terms|, i) {
        SpelledRunsAreWindows(terms, raw, i);
      } else {
        InitialismsHaveNoIdentifier(terms, raw, i);
      }
    }
  }

  lemma BreakdownIsBounded(lex: Lexicon, terms: seq<QueryTerm>, windows: set<Text>, raw: seq<Text>, brand: int)
    requires terms != []
    ensures var b := FullBreakdown(lex, terms, windows, raw, brand);
            && 0 <= b.product == Product(lex, terms, windows, raw) <= PRODUCT_MAX && 0 <= b.phrase <= PHRASE_CONTIGUOUS && b.brand == brand
            && b.accessory == (if SellsAccessory(lex, raw, Requested(terms)) then -PENALTY else 0)
            && b.compatibility == if ForSomethingElse(lex, raw, Positions(terms, Stems(lex, raw))) then -PENALTY else 0
  {
    ProductIsBounded(lex, terms, windows, raw);
  }

  lemma AcceptedIdentifierIsFound(
    lex: Lexicon, terms: seq<QueryTerm>, windows: set<Text>, raw: seq<Text>, brand: int, minScore: int, i: nat)
    requires i < |terms| && terms[i].isIdentifier && terms[i].mustMatch
    requires TermsEvaluated(lex, terms, windows, raw, brand, minScore).Accepted?
    ensures terms[i].compact in windows || Rescued(terms, windows, raw, i)
  {
    if Missing(lex, terms, terms[i], windows, Stems(lex, raw)) && !Rescued(terms, windows, raw, i) {
      StillIsKept(lex, terms, windows, raw, |terms|, i);
    }
  }

  lemma AcceptanceMeansCoverage(lex: Lexicon, terms: seq<QueryTerm>, raw: seq<Text>, brand: int, minScore: int)
    requires terms != [] && brand <= BRAND_TITLE && (forall t | t in terms :: WellFormed(t))
    requires TermsEvaluated(lex, terms, Windows(raw, WINDOW), raw, brand, minScore).Accepted?
    ensures forall i | 0 <= i < |terms| && terms[i].isIdentifier :: Spelt(terms, raw, i)
    ensures |Unaccounted(lex, terms, Windows(raw, WINDOW), raw, |terms|)| <= AllowedMissing(terms)
    ensures minScore > 50 ==>
              !SellsAccessory(lex, raw, Requested(terms)) && !ForSomethingElse(lex, raw, Positions(terms, Stems(lex, raw)))
  {
    var windows := Windows(raw, WINDOW);
    StillIsCounted(lex, terms, windows, raw, |terms|);
    BreakdownIsBounded(lex, terms, windows, raw, brand);
    forall i | 0 <= i < |terms| && terms[i].isIdentifier
      ensures Spelt(terms, raw, i)
    {
      assert terms[i] in terms && WellFormed(terms[i]);
      AcceptedIdentifierIsFound(lex, terms, windows, raw, brand, minScore, i);
      RescuedIdentifierIsSpelt(terms, raw, i);
    }
  }

  /** What it takes for a listing to be accepted for a query with product terms.
      Every identifier of the query is in the title; of its `n` plain words at
      most `max(0, (n - 1) / 3)` are unaccounted for; the title names no brand
      unless it names a queried one; and with a threshold over 50 the listing
      drew no penalty. */
  lemma AcceptedListingsMatch(lex: Lexicon, chunks: seq<Chunk>, raw: seq<Text>, description: seq<Text>, minScore: int)
    requires Parsed(lex, chunks).terms != []
    requires Evaluated(lex, Parsed(lex, chunks), raw, description, minScore).Accepted?
    ensures var parsed := Parsed(lex, chunks);
            var terms := parsed.terms;
            && (forall i | 0 <= i < |terms| && terms[i].isIdentifier :: Spelt(terms, raw, i))
            && |Unaccounted(lex, terms, Windows(raw, WINDOW), raw, |terms|)| <= AllowedMissing(terms)
            && (parsed.brands != {} && TitleBrands(lex, raw) != {} ==> TitleBrands(lex, raw) * parsed.brands != {})
            && (minScore > 50 ==>
                  !SellsAccessory(lex, raw, Requested(terms)) && !ForSomethingElse(lex, raw, Positions(terms, Stems(lex, raw))))
  {
    hide TermsEvaluated, Terms, TitleBrands, BrandSpans, Items, Windows;
    var parsed, items := Parsed(lex, chunks), Items(lex, chunks);
    TermsAreWellFormed(lex, items, BrandSpans(Texts(items), lex, 0), |items|);
    AcceptanceMeansCoverage(lex, parsed.terms, raw, BrandPoints(parsed.brands, TitleBrands(lex, raw)), minScore);
  }

  lemma TermScoresAreBounded(lex: Lexicon, terms: seq<QueryTerm>, windows: set<Text>, raw: seq<Text>, brand: int, minScore: int)
    requires terms != [] && 0 <= brand <= BRAND_TITLE
    ensures 0 <= TermsEvaluated(lex, terms, windows, raw, brand, minScore).score <= 100
  {
    hide Still, FullBreakdown, Product;
    ProductIsBounded(lex, terms, windows, raw);
    VerdictIsBounded(FullBreakdown(lex, terms, windows, raw, brand), minScore);
  }

  lemma VerdictIsBounded(breakdown: Breakdown, minScore: int)
    ensures 0 <= Verdict(breakdown, minScore).score <= 100
  {
  }

  /** Every score is a percentage; and a listing whose title names brands is only
      ever accepted for a query with a brand when it names one of those. */
  lemma ScoresAndBrands(lex: Lexicon, parsed: ParsedQuery, raw: seq<Text>, description: seq<Text>, minScore: int)
    ensures var r := Evaluated(lex, parsed, raw, description, minScore);
            && 0 <= r.score <= 100
            && (r.Accepted? && parsed.brands != {} && TitleBrands(lex, raw) != {} ==> TitleBrands(lex, raw) * parsed.brands != {})
  {
    if parsed.terms != [] {
      TermScoresAreBounded(lex, parsed.terms, Windows(raw, WINDOW), raw, BrandPoints(parsed.brands, TitleBrands(lex, raw)), minScore);
    }
  }

  lemma {:induction false} AllHit(lex: Lexicon, terms: seq<QueryTerm>, windows: set<Text>, stems: seq<Text>, n: nat)
    requires n <= |terms| && forall t | t in terms :: Hit(t, windows, stems)
    ensures Tenths(lex, terms, windows, stems, n) == 10 * Weight(terms[..n]) && MissingAmong(lex, terms, windows, stems, n) == []
  {
    if n > 0 {
      AllHit(lex, terms, windows, stems, n - 1);
      assert terms[..n][..n - 1] == terms[..n - 1];
    }
  }

  lemma FullProduct(lex: Lexicon, terms: seq<QueryTerm>, windows: set<Text>, raw: seq<Text>)
    requires terms != [] && forall t | t in terms :: Hit(t, windows, Stems(lex, raw))
    ensures Product(lex, terms, windows, raw) == PRODUCT_MAX && Still(lex, terms, windows, raw, |terms|) == []
  {
    AllHit(lex, terms, windows, Stems(lex, raw), |terms|);
    assert terms[..|terms|] == terms;
    NothingIsStillMissing(lex, terms, windows, raw, |terms|);
    FullShare(Weight(terms));
  }

  lemma FullTermsAreAccepted(lex: Lexicon, terms: seq<QueryTerm>, windows: set<Text>, raw: seq<Text>, brand: int, minScore: int)
    requires terms != [] && brand >= BRAND_WEAK && minScore <= PRODUCT_MAX + BRAND_WEAK
    requires forall t | t in terms :: Hit(t, windows, Stems(lex, raw))
    requires !SellsAccessory(lex, raw, Requested(terms)) && !ForSomethingElse(lex, raw, Positions(terms, Stems(lex, raw)))
    ensures TermsEvaluated(lex, terms, windows, raw, brand, minScore).Accepted?
  {
    FullProduct(lex, terms, windows, raw);
    BreakdownIsBounded(lex, terms, windows, raw, brand);
    hide Product, FullBreakdown, SellsAccessory, ForSomethingElse, Still;
  }

  /** Conversely: a title with every term of the query, in any order, that draws
      no penalty and names no other brand, is accepted at any threshold up to 78. */
  lemma FullMatchIsAccepted(lex: Lexicon, parsed: ParsedQuery, raw: seq<Text>, description: seq<Text>, minScore: int)
    requires parsed.terms != [] && raw != [] && minScore <= PRODUCT_MAX + BRAND_WEAK
    requires forall t | t in parsed.terms :: Hit(t, Windows(raw, WINDOW), Stems(lex, raw))
    requires parsed.brands == {} || TitleBrands(lex, raw) == {} || TitleBrands(lex, raw) * parsed.brands != {}
    requires !SellsAccessory(lex, raw, Requested(parsed.terms))
    requires !ForSomethingElse(lex, raw, Positions(parsed.terms, Stems(lex, raw)))
    ensures Evaluated(lex, parsed, raw, description, minScore).Accepted?
  {
    hide TermsEvaluated, TitleBrands, Windows;
    FullTermsAreAccepted(lex, parsed.terms, Windows(raw, WINDOW), raw, BrandPoints(parsed.brands, TitleBrands(lex, raw)), minScore);
  }

  lemma QuotientOfProduct(a: int, b: int)
    requires b > 0
    ensures (a * b) / b == a && (a * b) % b == 0
  {
    var q, r := (a * b) / b, (a * b) % b;
    assert a * b == q * b + r;
    ProductsKeepOrder(q + 1, a, b);
    ProductsKeepOrder(a + 1, q, b);
    ProductsKeepOrder(q, a, b);
  }

  lemma FullShare(total: nat)
    requires total > 0
    ensures ProductPoints(10 * total, total) == PRODUCT_MAX
  {
    QuotientOfProduct(PRODUCT_MAX, 10 * total);
  }
}

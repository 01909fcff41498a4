/** packages/deploy-providers/src/pricing.js: ranking offers, over the reals. */
module Ranking {
  import opened Options

  datatype Availability = Yes | No | NotStated

  datatype Offer = Offer(providerId: string, pricePerHour: real, available: Availability)

  datatype Weights = Weights(price: real, reliability: real, dx: real, availability: real)

  function Preset(name: string): Option<Weights> {
    match name
    case "cheap" => Some(Weights(0.70, 0.10, 0.10, 0.10))
    case "balanced" => Some(Weights(0.45, 0.25, 0.20, 0.10))
    case "reliable" => Some(Weights(0.25, 0.45, 0.20, 0.10))
    case "production" => Some(Weights(0.15, 0.50, 0.20, 0.15))
    case _ => None
  }

  datatype Scores = Scores(reliability: real, dx: real)

  function ProviderScores(id: string): Scores {
    match id
    case "runpod" => Scores(0.85, 0.85)
    case "lambda" => Scores(0.90, 0.80)
    case "tensordock" => Scores(0.75, 0.70)
    case "digitalocean" => Scores(0.90, 0.85)
    case "vast" => Scores(0.65, 0.65)
    case _ => Scores(0.5, 0.5)
  }

  predicate Eligible(o: Offer, cap: Option<real>) {
    o.available != No && (cap.None? || o.pricePerHour <= cap.value)
  }

  function EligibleOf(offers: seq<Offer>, cap: Option<real>): seq<Offer> {
    if offers == [] then [] else (if Eligible(offers[0], cap) then [offers[0]] else []) + EligibleOf(offers[1..], cap)
  }

  function Max(a: real, b: real): real { if a < b then b else a }

  function Min(a: real, b: real): real { if a < b then a else b }

  function MaxPrice(offers: seq<Offer>): (m: real)
    requires offers != []
    ensures forall o | o in offers :: o.pricePerHour <= m
  {
    if |offers| == 1 then offers[0].pricePerHour else Max(offers[0].pricePerHour, MaxPrice(offers[1..]))
  }

  function MinPrice(offers: seq<Offer>): (m: real)
    requires offers != []
    ensures forall o | o in offers :: m <= o.pricePerHour
  {
    if |offers| == 1 then offers[0].pricePerHour else Min(offers[0].pricePerHour, MinPrice(offers[1..]))
  }

  function NormalizedPrice(price: real, lowest: real, range: real): real
    requires range != 0.0
  {
    1.0 - (price - lowest) / range
  }

  function Score(o: Offer, w: Weights, lowest: real, range: real): real
    requires range != 0.0
  {
    var p := ProviderScores(o.providerId);
    NormalizedPrice(o.pricePerHour, lowest, range) * w.price + p.reliability * w.reliability + p.dx * w.dx
    + (if o.available == Yes then 1.0 else 0.0) * w.availability
  }

  datatype Ranked = Ranked(offer: Offer, score: real)

  function Decorate(offers: seq<Offer>, w: Weights, lowest: real, range: real): seq<Ranked>
    requires range != 0.0
  {
    if offers == [] then []
    else [Ranked(offers[0], Score(offers[0], w, lowest, range))] + Decorate(offers[1..], w, lowest, range)
  }

  /** `sort((a, b) => b.score - a.score)`: stable, best first. */
  function Sort(rs: seq<Ranked>): seq<Ranked> {
    if rs == [] then [] else Insert(rs[0], Sort(rs[1..]))
  }

  function Insert(r: Ranked, rs: seq<Ranked>): seq<Ranked> {
    if rs == [] || rs[0].score <= r.score then [r] + rs else [rs[0]] + Insert(r, rs[1..])
  }

  function PriceRange(eligible: seq<Offer>): (r: real)
    requires eligible != []
    ensures 0.000001 <= r && MaxPrice(eligible) - MinPrice(eligible) <= r
  {
    Max(MaxPrice(eligible) - MinPrice(eligible), 0.000001)
  }

  /** None stands for the error thrown on an unknown preset. */
  function RankOffers(offers: seq<Offer>, presetName: string, cap: Option<real>): Option<seq<Ranked>> {
    match Preset(presetName)
    case None => None
    case Some(w) =>
      var eligible := EligibleOf(offers, cap);
      if eligible == [] then Some([])
      else Some(Sort(Decorate(eligible, w, MinPrice(eligible), PriceRange(eligible))))
  }

  // ---------- The sort ----------

  predicate Descending(rs: seq<Ranked>) {
    forall i, j | 0 <= i < j < |rs| :: rs[j].score <= rs[i].score
  }

  /** The entries with one score, in order. */
  function WithScore(rs: seq<Ranked>, score: real): seq<Ranked> {
    if rs == [] then [] else (if rs[0].score == score then [rs[0]] else []) + WithScore(rs[1..], score)
  }

  lemma {:induction false} InsertPermutes(r: Ranked, rs: seq<Ranked>)
    ensures multiset(Insert(r, rs)) == multiset(rs) + multiset{r}
  {
    if rs != [] && r.score < rs[0].score {
      InsertPermutes(r, rs[1..]);
      assert rs == [rs[0]] + rs[1..];
    }
  }

  lemma {:induction false} InsertKeepsOrder(r: Ranked, rs: seq<Ranked>)
    requires Descending(rs)
    ensures Descending(Insert(r, rs))
  {
    if rs != [] && r.score < rs[0].score {
      InsertKeepsOrder(r, rs[1..]);
      var tail := Insert(r, rs[1..]);
      InsertPermutes(r, rs[1..]);
      forall i | 0 <= i < |tail| ensures tail[i].score <= rs[0].score {
        assert tail[i] in multiset(tail);
      }
    }
  }

  lemma {:induction false} InsertIsStable(r: Ranked, rs: seq<Ranked>, score: real)
    requires Descending(rs)
    ensures WithScore(Insert(r, rs), score) == WithScore([r] + rs, score)
  {
    assert ([r] + rs)[1..] == rs;
    if rs != [] && r.score < rs[0].score {
      InsertIsStable(r, rs[1..], score);
      assert ([r] + rs[1..])[1..] == rs[1..];
      assert ([rs[0]] + Insert(r, rs[1..]))[1..] == Insert(r, rs[1..]);
    }
  }

  lemma NoneIsDescending()
    ensures Descending([])
  {
  }

  lemma {:induction false} SortIsStableSort(rs: seq<Ranked>)
    ensures Descending(Sort(rs)) && multiset(Sort(rs)) == multiset(rs)
    ensures forall score :: WithScore(Sort(rs), score) == WithScore(rs, score)
  {
    hide Descending, Insert;
    if rs == [] {
      NoneIsDescending();
    } else {
      SortIsStableSort(rs[1..]);
      InsertKeepsOrder(rs[0], Sort(rs[1..]));
      InsertPermutes(rs[0], Sort(rs[1..]));
      assert rs == [rs[0]] + rs[1..];
      forall score ensures WithScore(Sort(rs), score) == WithScore(rs, score) {
        InsertIsStable(rs[0], Sort(rs[1..]), score);
        assert ([rs[0]] + Sort(rs[1..]))[1..] == Sort(rs[1..]);
      }
    }
  }

  // ---------- The scores ----------

  predicate Proper(w: Weights) {
    0.0 < w.price && 0.0 <= w.reliability && 0.0 <= w.dx && 0.0 <= w.availability
    && w.price + w.reliability + w.dx + w.availability == 1.0
  }

  lemma PresetsAreProper(name: string)
    requires Preset(name).Some?
    ensures Proper(Preset(name).value)
  {
  }

  lemma NormalizedPriceInUnit(price: real, lowest: real, range: real)
    requires 0.0 < range && lowest <= price <= lowest + range
    ensures 0.0 <= NormalizedPrice(price, lowest, range) <= 1.0
  {
    var q := (price - lowest) / range;
    assert q * range == price - lowest;
  }

  lemma ScoreInUnit(o: Offer, w: Weights, lowest: real, range: real)
    requires Proper(w) && 0.0 < range && lowest <= o.pricePerHour <= lowest + range
    ensures 0.0 <= Score(o, w, lowest, range) <= 1.0
  {
    hide Score, ProviderScores, NormalizedPrice;
    NormalizedPriceInUnit(o.pricePerHour, lowest, range);
    ProviderScoresInUnit(o.providerId);
    var p := ProviderScores(o.providerId);
    var a, d := NormalizedPrice(o.pricePerHour, lowest, range), if o.available == Yes then 1.0 else 0.0;
    ScoreIs(o, w, lowest, range, a, d);
    WeightedSum(a, p.reliability, p.dx, d, w);
  }

  lemma ScoreIs(o: Offer, w: Weights, lowest: real, range: real, a: real, d: real)
    requires range != 0.0 && a == NormalizedPrice(o.pricePerHour, lowest, range)
        && d == (if o.available == Yes then 1.0 else 0.0)
    ensures var p := ProviderScores(o.providerId);
            Score(o, w, lowest, range) == a * w.price + p.reliability * w.reliability + p.dx * w.dx + d * w.availability
  {
    hide ProviderScores, NormalizedPrice;
  }

  lemma ProviderScoresInUnit(id: string)
    ensures 0.0 <= ProviderScores(id).reliability <= 1.0 && 0.0 <= ProviderScores(id).dx <= 1.0
  {
  }

  lemma WeightedSum(a: real, b: real, c: real, d: real, w: Weights)
    requires Proper(w) && 0.0 <= a <= 1.0 && 0.0 <= b <= 1.0 && 0.0 <= c <= 1.0 && 0.0 <= d <= 1.0
    ensures 0.0 <= a * w.price + b * w.reliability + c * w.dx + d * w.availability <= 1.0
  {
    var p := Part(a, w.price);
    var q := Part(b, w.reliability);
    var r := Part(c, w.dx);
    var s := Part(d, w.availability);
    SumOfParts(p, q, r, s, w);
  }

  lemma SumOfParts(p: real, q: real, r: real, s: real, w: Weights)
    requires Proper(w) && 0.0 <= p <= w.price && 0.0 <= q <= w.reliability && 0.0 <= r <= w.dx
        && 0.0 <= s <= w.availability
    ensures 0.0 <= p + q + r + s <= 1.0
  {
  }

  lemma Part(x: real, w: real) returns (p: real)
    requires 0.0 <= x <= 1.0 && 0.0 <= w
    ensures p == x * w && 0.0 <= p <= w
  {
    p := x * w;
    ProductNotNegative(x, w);
    ProductNotNegative(1.0 - x, w);
    Distributes(x, w);
  }

  lemma ProductNotNegative(x: real, w: real)
    requires 0.0 <= x && 0.0 <= w
    ensures 0.0 <= x * w
  {
  }

  lemma Distributes(x: real, w: real)
    ensures (1.0 - x) * w == w - x * w
  {
  }

  /** Same provider, same availability, lower price: a strictly better score. */
  lemma CheaperScoresHigher(a: Offer, b: Offer, w: Weights, lowest: real, range: real)
    requires Proper(w) && 0.0 < range
    requires a.providerId == b.providerId && a.available == b.available && a.pricePerHour < b.pricePerHour
    ensures Score(b, w, lowest, range) < Score(a, w, lowest, range)
  {
    var x, y := (a.pricePerHour - lowest) / range, (b.pricePerHour - lowest) / range;
    assert x * range == a.pricePerHour - lowest && y * range == b.pricePerHour - lowest;
    assert (1.0 - y) * w.price < (1.0 - x) * w.price;
  }

  lemma {:induction false} DecorateEntries(offers: seq<Offer>, w: Weights, lowest: real, range: real)
    requires range != 0.0
    ensures var rs := Decorate(offers, w, lowest, range);
            |rs| == |offers|
            && forall i | 0 <= i < |rs| :: rs[i] == Ranked(offers[i], Score(offers[i], w, lowest, range))
  {
    if offers != [] { DecorateEntries(offers[1..], w, lowest, range); }
  }

  lemma EntryIsScored(offers: seq<Offer>, w: Weights, lowest: real, range: real, r: Ranked)
    requires range != 0.0 && r in Decorate(offers, w, lowest, range)
    ensures r.offer in offers && r.score == Score(r.offer, w, lowest, range)
  {
    hide Score, Decorate;
    DecorateEntries(offers, w, lowest, range);
  }

  // ---------- What rankOffers promises ----------

  /** The result for a known preset: the eligible offers, each with its score, sorted best first with
      ties in their original order; and every score lies between 0 and 1. */
  lemma RankingIsRight(offers: seq<Offer>, presetName: string, cap: Option<real>)
    requires Preset(presetName).Some? && EligibleOf(offers, cap) != []
    ensures var eligible := EligibleOf(offers, cap);
            var scored := Decorate(eligible, Preset(presetName).value, MinPrice(eligible), PriceRange(eligible));
            var ranked := RankOffers(offers, presetName, cap).value;
            && Descending(ranked)
            && multiset(ranked) == multiset(scored)
            && (forall score :: WithScore(ranked, score) == WithScore(scored, score))
            && (forall r | r in ranked :: 0.0 <= r.score <= 1.0 && r.offer in eligible)
  {
    var eligible, w := EligibleOf(offers, cap), Preset(presetName).value;
    var lowest, range := MinPrice(eligible), PriceRange(eligible);
    var scored := Decorate(eligible, w, lowest, range);
    var ranked := RankOffers(offers, presetName, cap).value;
    hide Score, Preset, Eligible, Sort, Decorate, Descending;
    SortIsStableSort(scored);
    PresetsAreProper(presetName);
    forall r | r in ranked ensures 0.0 <= r.score <= 1.0 && r.offer in eligible {
      assert r in multiset(ranked);
      EntryIsScored(eligible, w, lowest, range, r);
      ScoreInUnit(r.offer, w, lowest, range);
    }
  }

  /** A strictly cheaper offer of the same provider and availability always comes first. */
  lemma CheaperComesFirst(offers: seq<Offer>, presetName: string, cap: Option<real>, i: nat, j: nat)
    requires Preset(presetName).Some? && EligibleOf(offers, cap) != []
    requires var ranked := RankOffers(offers, presetName, cap).value;
             && i < |ranked| && j < |ranked|
             && ranked[i].offer.providerId == ranked[j].offer.providerId
             && ranked[i].offer.available == ranked[j].offer.available
             && ranked[i].offer.pricePerHour < ranked[j].offer.pricePerHour
    ensures i < j
  {
    hide Score, Preset, Eligible, Sort, Decorate;
    RankingIsRight(offers, presetName, cap);
    PresetsAreProper(presetName);
    var eligible, w := EligibleOf(offers, cap), Preset(presetName).value;
    var lowest, range := MinPrice(eligible), PriceRange(eligible);
    var scored := Decorate(eligible, w, lowest, range);
    var ranked := RankOffers(offers, presetName, cap).value;
    assert ranked[i] in multiset(ranked) && ranked[j] in multiset(ranked);
    EntryIsScored(eligible, w, lowest, range, ranked[i]);
    EntryIsScored(eligible, w, lowest, range, ranked[j]);
    CheaperScoresHigher(ranked[i].offer, ranked[j].offer, w, lowest, range);
  }

  lemma {:induction false} EligibleAppend(a: seq<Offer>, b: seq<Offer>, cap: Option<real>)
    ensures EligibleOf(a + b, cap) == EligibleOf(a, cap) + EligibleOf(b, cap)
  {
    hide Eligible;
    if a == [] {
      assert a + b == b;
    } else {
      assert (a + b)[1..] == a[1..] + b;
      EligibleAppend(a[1..], b, cap);
      var first := if Eligible(a[0], cap) then [a[0]] else [];
      assert first + (EligibleOf(a[1..], cap) + EligibleOf(b, cap))
          == first + EligibleOf(a[1..], cap) + EligibleOf(b, cap);
    }
  }

  /** Offers that are not eligible change nothing, wherever they stand. */
  lemma IneligibleChangesNothing(a: seq<Offer>, o: Offer, b: seq<Offer>, presetName: string, cap: Option<real>)
    requires !Eligible(o, cap)
    ensures RankOffers(a + [o] + b, presetName, cap) == RankOffers(a + b, presetName, cap)
  {
    EligibleAppend(a + [o], b, cap);
    EligibleAppend(a, [o], cap);
    EligibleAppend(a, b, cap);
    assert EligibleOf([o], cap) == [];
    assert EligibleOf(a, cap) + [] == EligibleOf(a, cap);
  }
}

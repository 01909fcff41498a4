/** What `rankOffers` returns, with its weights, scores and price scale written out. */
module RankingLaws {
  import opened Options
  import opened Ranking

  /** The offers of a ranking, best first. */
  function OffersOf(ranked: seq<Ranked>): (offers: seq<Offer>)
    ensures |offers| == |ranked| && forall i | 0 <= i < |ranked| :: offers[i] == ranked[i].offer
  {
    seq(|ranked|, i requires 0 <= i < |ranked| => ranked[i].offer)
  }

  /** Not known to be unavailable, and within the cap if there is one. */
  predicate Wanted(o: Offer, cap: Option<real>) {
    (o.available == Yes || o.available == NotStated) && (cap == None || o.pricePerHour <= cap.value)
  }

  lemma CountStep<T>(s: seq<T>, x: T)
    requires s != []
    ensures multiset(s)[x] == (if s[0] == x then 1 else 0) + multiset(s[1..])[x]
  {
    assert s == [s[0]] + s[1..];
  }

  lemma {:induction false} EligibleAre(offers: seq<Offer>, cap: Option<real>, o: Offer)
    ensures multiset(EligibleOf(offers, cap))[o] == if Wanted(o, cap) then multiset(offers)[o] else 0
  {
    if offers != [] {
      EligibleAre(offers[1..], cap, o);
      assert Eligible(offers[0], cap) <==> Wanted(offers[0], cap);
      CountStep(offers, o);
      var eligible := EligibleOf(offers[1..], cap);
      if Wanted(offers[0], cap) {
        CountStep([offers[0]] + eligible, o);
        assert ([offers[0]] + eligible)[1..] == eligible;
      } else {
        assert [] + eligible == eligible;
      }
    }
  }

  function Without<T>(s: seq<T>, i: nat): seq<T>
    requires i < |s|
  {
    s[..i] + s[i + 1..]
  }

  lemma OneLess<T>(s: seq<T>, i: nat)
    requires i < |s|
    ensures multiset(Without(s, i)) == multiset(s) - multiset{s[i]} && s[i] in multiset(s)
  {
    assert s == s[..i] + [s[i]] + s[i + 1..];
  }

  lemma {:induction false} OffersCount(ranked: seq<Ranked>, scored: seq<Ranked>)
    requires multiset(ranked) == multiset(scored)
    ensures multiset(OffersOf(ranked)) == multiset(OffersOf(scored))
    decreases |ranked|
  {
    hide Without;
    if ranked == [] {
      assert |scored| == |multiset(scored)| == 0;
    } else {
      var r := ranked[0];
      assert r in multiset(scored);
      var i :| 0 <= i < |scored| && scored[i] == r;
      OneLess(ranked, 0);
      OneLess(scored, i);
      OneLess(OffersOf(ranked), 0);
      OneLess(OffersOf(scored), i);
      OffersWithout(ranked, 0);
      OffersWithout(scored, i);
      ShorterWithout(ranked);
      OffersCount(Without(ranked, 0), Without(scored, i));
      BothPlus(multiset(OffersOf(ranked)), multiset(OffersOf(scored)), r.offer);
    }
  }

  lemma ShorterWithout<T>(s: seq<T>)
    requires s != []
    ensures |Without(s, 0)| < |s|
  {
  }

  lemma OffersWithout(ranked: seq<Ranked>, i: nat)
    requires i < |ranked|
    ensures OffersOf(Without(ranked, i)) == Without(OffersOf(ranked), i)
  {
  }

  lemma BothPlus<T>(a: multiset<T>, b: multiset<T>, x: T)
    requires x in a && x in b && a - multiset{x} == b - multiset{x}
    ensures a == b
  {
    assert a == a - multiset{x} + multiset{x};
    assert b == b - multiset{x} + multiset{x};
  }

  /** Exactly the wanted offers are ranked, each as often as it was offered; an unknown preset is an error. */
  lemma RankedAreWanted(offers: seq<Offer>, presetName: string, cap: Option<real>, o: Offer)
    ensures var r := RankOffers(offers, presetName, cap);
            && (r.Some? <==> presetName in {"cheap", "balanced", "reliable", "production"})
            && (r.Some? ==> multiset(OffersOf(r.value))[o] == if Wanted(o, cap) then multiset(offers)[o] else 0)
  {
    hide Score, Sort, Decorate, EligibleOf, Eligible;
    EligibleAre(offers, cap, o);
    if Preset(presetName).Some? {
      var eligible, w := EligibleOf(offers, cap), Preset(presetName).value;
      if eligible != [] {
        var scored := Decorate(eligible, w, MinPrice(eligible), PriceRange(eligible));
        SortIsStableSort(scored);
        OffersCount(Sort(scored), scored);
        DecorateEntries(eligible, w, MinPrice(eligible), PriceRange(eligible));
        assert OffersOf(scored) == eligible;
      } else {
        assert OffersOf([]) == [];
      }
    }
  }

  // ---------- The score of a ranked offer ----------

  lemma {:induction false} PricesAreOffered(offers: seq<Offer>)
    requires offers != []
    ensures exists o :: o in offers && o.pricePerHour == MinPrice(offers)
    ensures exists o :: o in offers && o.pricePerHour == MaxPrice(offers)
  {
    assert offers[0] in offers && forall o | o in offers[1..] :: o in offers;
    if 1 < |offers| {
      PricesAreOffered(offers[1..]);
      var low :| low in offers[1..] && low.pricePerHour == MinPrice(offers[1..]);
      var high :| high in offers[1..] && high.pricePerHour == MaxPrice(offers[1..]);
      assert low in offers && high in offers;
    }
  }

  /** A price on the scale from the highest (0) to the lowest (1); prices that differ by less than a millionth are
      told apart by less than that. */
  function OnScale(price: real, lowest: real, highest: real): real {
    if 0.000001 <= highest - lowest then (highest - price) / (highest - lowest)
    else 1.0 - (price - lowest) * 1_000_000.0
  }

  lemma ScaleIs(price: real, offers: seq<Offer>)
    requires offers != []
    ensures NormalizedPrice(price, MinPrice(offers), PriceRange(offers))
         == OnScale(price, MinPrice(offers), MaxPrice(offers))
  {
    hide MinPrice, MaxPrice;
    var lowest, highest := MinPrice(offers), MaxPrice(offers);
    if 0.000001 <= highest - lowest {
      SharesAddUp(price - lowest, highest - price, highest - lowest);
    } else {
      MillionTimes(price - lowest);
    }
  }

  lemma SharesAddUp(a: real, b: real, range: real)
    requires 0.0 < range && a + b == range
    ensures 1.0 - a / range == b / range
  {
    IsShare(a, range);
    IsShare(b, range);
    OnlyShare(1.0 - a / range, b, range);
  }

  lemma IsShare(a: real, range: real)
    requires range != 0.0
    ensures a / range * range == a
  {
  }

  lemma OnlyShare(s: real, b: real, range: real)
    requires range != 0.0 && s * range == b
    ensures s == b / range
  {
  }

  lemma MillionTimes(x: real)
    ensures x / 0.000001 == x * 1_000_000.0
  {
  }

  /** What each preset makes of the price, of the reliability and the developer experience a provider is known
      for, and of stated availability. */
  function Weighted(presetName: string, price: real, reliability: real, dx: real, available: real): real {
    if presetName == "cheap" then 0.70 * price + 0.10 * reliability + 0.10 * dx + 0.10 * available
    else if presetName == "balanced" then 0.45 * price + 0.25 * reliability + 0.20 * dx + 0.10 * available
    else if presetName == "reliable" then 0.25 * price + 0.45 * reliability + 0.20 * dx + 0.10 * available
    else 0.15 * price + 0.50 * reliability + 0.20 * dx + 0.15 * available
  }

  function Known(id: string): (real, real) {
    if id == "runpod" then (0.85, 0.85) else if id == "lambda" then (0.90, 0.80)
    else if id == "tensordock" then (0.75, 0.70) else if id == "digitalocean" then (0.90, 0.85)
    else if id == "vast" then (0.65, 0.65) else (0.5, 0.5)
  }

  lemma PresetWeighs(presetName: string, w: Weights, price: real, reliability: real, dx: real, available: real)
    requires Preset(presetName) == Some(w)
    ensures price * w.price + reliability * w.reliability + dx * w.dx + available * w.availability
         == Weighted(presetName, price, reliability, dx, available)
  {
  }

  /** The score of every ranked offer: on the scale between the highest and the lowest wanted price, weighed as
      the preset says, with what is known of the provider. */
  lemma ScoresAre(offers: seq<Offer>, presetName: string, cap: Option<real>, r: Ranked)
    requires RankOffers(offers, presetName, cap).Some? && r in RankOffers(offers, presetName, cap).value
    ensures exists lowest, highest ::
              && (forall o | o in offers && Wanted(o, cap) :: lowest <= o.pricePerHour <= highest)
              && (exists o :: o in offers && Wanted(o, cap) && o.pricePerHour == lowest)
              && (exists o :: o in offers && Wanted(o, cap) && o.pricePerHour == highest)
              && r.score == Weighted(presetName, OnScale(r.offer.pricePerHour, lowest, highest),
                                     Known(r.offer.providerId).0, Known(r.offer.providerId).1,
                                     if r.offer.available == Yes then 1.0 else 0.0)
  {
    hide *;
    var eligible, w := RankedHasScore(offers, presetName, cap, r);
    var lowest, highest, price := MinPrice(eligible), MaxPrice(eligible), r.offer.pricePerHour;
    PricesAreOffered(eligible);
    EligibleInOffers(offers, cap);
    ScaleIs(price, eligible);
    var available := if r.offer.available == Yes then 1.0 else 0.0;
    var scaled := OnScale(price, lowest, highest);
    ScoreIs(r.offer, w, lowest, PriceRange(eligible), scaled, available);
    var p := ProviderScores(r.offer.providerId);
    KnownIs(r.offer.providerId);
    PresetWeighs(presetName, w, scaled, p.reliability, p.dx, available);
  }

  lemma KnownIs(id: string)
    ensures Known(id) == (ProviderScores(id).reliability, ProviderScores(id).dx)
  {
  }

  lemma EligibleInOffers(offers: seq<Offer>, cap: Option<real>)
    ensures forall o :: o in EligibleOf(offers, cap) <==> o in offers && Wanted(o, cap)
  {
    hide EligibleOf, Wanted;
    forall o ensures o in EligibleOf(offers, cap) <==> o in offers && Wanted(o, cap) {
      EligibleAre(offers, cap, o);
      assert o in EligibleOf(offers, cap) <==> o in multiset(EligibleOf(offers, cap));
      assert o in offers <==> o in multiset(offers);
    }
  }

  lemma RankedHasScore(offers: seq<Offer>, presetName: string, cap: Option<real>, r: Ranked)
    returns (eligible: seq<Offer>, w: Weights)
    requires RankOffers(offers, presetName, cap).Some? && r in RankOffers(offers, presetName, cap).value
    ensures Preset(presetName) == Some(w) && eligible == EligibleOf(offers, cap) != []
    ensures r.score == Score(r.offer, w, MinPrice(eligible), PriceRange(eligible))
  {
    hide Preset, Score, EligibleOf, Sort, Decorate;
    eligible, w := EligibleOf(offers, cap), Preset(presetName).value;
    var lowest, range := MinPrice(eligible), PriceRange(eligible);
    var scored := Decorate(eligible, w, lowest, range);
    SortIsStableSort(scored);
    assert r in multiset(Sort(scored));
    EntryIsScored(eligible, w, lowest, range, r);
  }
}

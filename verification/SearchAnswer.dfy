/** The ranked answer of the merged search, its pages, and why no input or iteration order shows. */
module SearchAnswer {
  import opened Wrappers
  import opened Sorting
  import opened SearchMerge

  /** Every item id the layers produced, in order of first appearance. */
  function FirstAppearances(ids: seq<int>): (r: seq<int>)
    ensures forall id :: id in r <==> id in ids
    ensures forall a, b :: 0 <= a < b < |r| ==> r[a] != r[b]
    decreases |ids|
  {
    if ids == [] then []
    else
      var r, last := FirstAppearances(ids[..|ids| - 1]), ids[|ids| - 1];
      assert ids == ids[..|ids| - 1] + [last];
      if last in r then r else r + [last]
  }

  lemma AppearNext(ids: seq<int>, k: nat)
    requires k < |ids|
    ensures FirstAppearances(ids[..k + 1]) ==
      FirstAppearances(ids[..k]) + if ids[k] in FirstAppearances(ids[..k]) then [] else [ids[k]]
  {
    assert ids[..k + 1][..k] == ids[..k];
  }

  /** Collects the distinct ids of the layers for the metadata query. */
  method CandidateIds(items: seq<ItemHit>, offers: seq<OfferHit>, requests: seq<RequestHit>) returns (out: seq<int>)
    ensures out == FirstAppearances(AllIds(items, offers, requests))
  {
    var all := AllIds(items, offers, requests);
    var seen: set<int> := {};
    out := [];
    for k := 0 to |all|
      invariant out == FirstAppearances(all[..k]) && forall id :: id in seen <==> id in out
    {
      AppearNext(all, k);
      if all[k] !in seen {
        seen := seen + {all[k]};
        out := out + [all[k]];
      }
    }
    assert all[..|all|] == all;
  }

  function AllIds(items: seq<ItemHit>, offers: seq<OfferHit>, requests: seq<RequestHit>): seq<int> {
    seq(|items|, k requires 0 <= k < |items| => items[k].id) +
    seq(|offers|, k requires 0 <= k < |offers| => offers[k].itemId) +
    seq(|requests|, k requires 0 <= k < |requests| => requests[k].itemId)
  }

  /** The three layers as one list of contributions, in the order they are merged. */
  function Contributions(items: seq<ItemHit>, offers: seq<OfferHit>, requests: seq<RequestHit>): seq<Contribution> {
    seq(|items|, k requires 0 <= k < |items| =>
      Contribution(items[k].id, ClassifyItem(items[k].matchTier), items[k].score, FromItem(items[k].name))) +
    seq(|offers|, k requires 0 <= k < |offers| =>
      Contribution(offers[k].itemId, "VENDOR_OFFER", offers[k].score, FromOffer(offers[k].vendor))) +
    seq(|requests|, k requires 0 <= k < |requests| =>
      Contribution(requests[k].itemId, "REQUEST_HISTORY", requests[k].score, FromRequest(requests[k].text)))
  }

  // Ranking

  /** The part of a hit that ranks it. */
  datatype Rank = Rank(id: int, tier: string, score: real)

  function RankOf(h: Hit): Rank {
    Rank(h.id, h.tier, h.score)
  }

  predicate RankBefore(a: Rank, b: Rank) {
    var wa, wb := TierWeight(a.tier), TierWeight(b.tier);
    if wa != wb then wa > wb
    else if a.score != b.score then a.score > b.score
    else a.id < b.id
  }

  predicate Before(a: Hit, b: Hit) {
    RankBefore(RankOf(a), RankOf(b))
  }

  lemma BeforeOrders()
    ensures Order(Before) && Order(RankBefore)
  {
  }

  /** The metadata of an id; a missing row reads as inactive and nameless. */
  function MetaOf(meta: map<int, Meta>, id: int): Meta {
    if id in meta then meta[id] else Meta(false, "")
  }

  function Finished(h: Hit, m: Meta): Hit {
    h.(active := m.active, name := if h.name == "" then m.name else h.name)
  }

  predicate Wanted(h: Hit, onlyActive: Option<bool>) {
    onlyActive.None? || h.active == onlyActive.value
  }

  /** The full ranked list behind every page: each mentioned id the filter lets through once, as the
      contributions and the metadata tell it, in strict rank order. */
  ghost predicate Answer(seen: seq<Contribution>, meta: map<int, Meta>, onlyActive: Option<bool>, out: seq<Hit>) {
    && Sorted(Before, out)
    && DistinctIds(out)
    && (forall k {:trigger out[k]} :: 0 <= k < |out| ==> FromSeen(seen, meta, onlyActive, out[k]))
    && (forall id {:trigger Mentions(seen, id)} :: Mentions(seen, id) && WantedId(meta, onlyActive, id) ==>
      Lists(out, id))
  }

  ghost predicate FromSeen(seen: seq<Contribution>, meta: map<int, Meta>, onlyActive: Option<bool>, h: Hit) {
    exists told :: Told(seen, h.id, told) && h == Finished(told, MetaOf(meta, h.id)) && Wanted(h, onlyActive)
  }

  datatype Response = Response(total: nat, page: seq<Hit>, counts: map<string, nat>)

  function Tiers(out: seq<Hit>): (r: seq<string>)
    ensures |r| == |out|
  {
    seq(|out|, k requires 0 <= k < |out| => out[k].tier)
  }

  function Min(a: nat, b: nat): nat {
    if a < b then a else b
  }

  function Page(out: seq<Hit>, limit: nat, offset: nat): seq<Hit> {
    var start := Min(offset, |out|);
    out[start..Min(start + limit, |out|)]
  }

  lemma SomeId(ids: set<int>)
    requires ids != {}
    ensures exists id :: id in ids
  {
    assert (forall id :: id !in ids) ==> ids == {};
  }

  /** Each hit is told by the contributions, once per id, and no wanted id outside `todo` misses. */
  ghost predicate Collected(seen: seq<Contribution>, meta: map<int, Meta>, onlyActive: Option<bool>, out: seq<Hit>,
      done: set<int>) {
    && DistinctIds(out)
    && (forall k {:trigger out[k]} :: 0 <= k < |out| ==> out[k].id in done && FromSeen(seen, meta, onlyActive, out[k]))
    && (forall id {:trigger id in done} :: id in done && WantedId(meta, onlyActive, id) ==> Lists(out, id))
  }

  predicate WantedId(meta: map<int, Meta>, onlyActive: Option<bool>, id: int) {
    onlyActive.None? || MetaOf(meta, id).active == onlyActive.value
  }

  ghost predicate Lists(out: seq<Hit>, id: int) {
    exists k :: 0 <= k < |out| && out[k].id == id
  }

  lemma CollectedMore(seen: seq<Contribution>, meta: map<int, Meta>, onlyActive: Option<bool>, out: seq<Hit>,
      done: set<int>, told: Hit)
    requires Collected(seen, meta, onlyActive, out, done) && told.id !in done && Told(seen, told.id, told)
    ensures var h := Finished(told, MetaOf(meta, told.id));
      Collected(seen, meta, onlyActive, if Wanted(h, onlyActive) then out + [h] else out, done + {told.id})
  {
    var h := Finished(told, MetaOf(meta, told.id));
    var more := if Wanted(h, onlyActive) then out + [h] else out;
    assert Wanted(h, onlyActive) ==> FromSeen(seen, meta, onlyActive, h);
    assert forall k :: 0 <= k < |out| ==> more[k] == out[k];
    forall a, b | 0 <= a < b < |more|
      ensures more[a].id != more[b].id
    {
      assert out[a].id in done;
      if b < |out| {
        assert out[a].id != out[b].id;
      }
    }
    forall k | 0 <= k < |more|
      ensures more[k].id in done + {told.id} && FromSeen(seen, meta, onlyActive, more[k])
    {
      assert k < |out| ==> out[k].id in done && FromSeen(seen, meta, onlyActive, out[k]);
    }
    forall id | id in done + {told.id} && WantedId(meta, onlyActive, id)
      ensures Lists(more, id)
    {
      ListedMore(out, h, id, Wanted(h, onlyActive));
    }
  }

  lemma ListedMore(out: seq<Hit>, h: Hit, id: int, wanted: bool)
    ensures Lists(out, id) || (wanted && id == h.id) ==> Lists(if wanted then out + [h] else out, id)
  {
    if Lists(out, id) {
      var k :| 0 <= k < |out| && out[k].id == id;
      assert (out + [h])[k].id == id;
    }
    if wanted && id == h.id {
      assert (out + [h])[|out|].id == id;
    }
  }

  /** Finishes and filters the table's hits; the map is read in any order. */
  method Collect(r: Ranking, meta: map<int, Meta>, onlyActive: Option<bool>) returns (out: seq<Hit>)
    requires r.Valid()
    ensures Collected(r.seen, meta, onlyActive, out, r.hits.Keys)
  {
    out := [];
    ghost var ids := r.hits.Keys;
    var todo := r.hits.Keys;
    while todo != {}
      invariant todo <= ids
      invariant Collected(r.seen, meta, onlyActive, out, ids - todo)
      decreases |todo|
    {
      SomeId(todo);
      var id :| id in todo;
      assert id in r.hits && Told(r.seen, id, r.hits[id]);
      var h := Finished(r.hits[id], MetaOf(meta, id));
      CollectedMore(r.seen, meta, onlyActive, out, ids - todo, r.hits[id]);
      assert ids - (todo - {id}) == (ids - todo) + {id};
      out := if Wanted(h, onlyActive) then out + [h] else out;
      todo := todo - {id};
    }
    assert ids - todo == ids;
  }

  /** How many of the first k hits won under each tier. */
  ghost predicate Counted(tiers: seq<string>, counts: map<string, nat>) {
    && (forall t {:trigger t in counts} :: t in counts <==> t in tiers)
    && (forall t {:trigger counts[t]} :: t in counts ==> counts[t] == multiset(tiers)[t])
  }

  lemma CountedMore(tiers: seq<string>, counts: map<string, nat>, t: string)
    requires Counted(tiers, counts)
    ensures Counted(tiers + [t], counts[t := 1 + if t in counts then counts[t] else 0])
  {
    assert t !in counts ==> multiset(tiers)[t] == 0;
  }

  method CountTiers(out: seq<Hit>) returns (counts: map<string, nat>)
    ensures Counted(Tiers(out), counts)
  {
    counts := map[];
    for k := 0 to |out|
      invariant Counted(Tiers(out)[..k], counts)
    {
      CountedMore(Tiers(out)[..k], counts, out[k].tier);
      assert Tiers(out)[..k + 1] == Tiers(out)[..k] + [out[k].tier];
      counts := counts[out[k].tier := 1 + if out[k].tier in counts then counts[out[k].tier] else 0];
    }
    assert Tiers(out)[..|out|] == Tiers(out);
  }

  ghost function AnyKey(counts: map<string, nat>): (t: string)
    requires counts != map[]
    ensures t in counts
  {
    assert counts.Keys != {};
    var t :| t in counts.Keys;
    t
  }

  /** The counts of all tiers together. */
  ghost function SumOf(counts: map<string, nat>): nat
    decreases |counts|
  {
    if counts == map[] then 0
    else
      var t := AnyKey(counts);
      Fewer(counts, t);
      counts[t] + SumOf(counts - {t})
  }

  lemma Fewer(counts: map<string, nat>, t: string)
    requires t in counts
    ensures |counts - {t}| < |counts|
  {
    assert (counts - {t}).Keys == counts.Keys - {t};
    assert |(counts - {t}).Keys| == |counts - {t}| && |counts.Keys| == |counts|;
  }

  /** Whichever tier is taken out first. */
  lemma {:induction false} SumWithout(counts: map<string, nat>, t: string)
    requires t in counts
    ensures SumOf(counts) == counts[t] + SumOf(counts - {t})
    decreases |counts|
  {
    var p := AnyKey(counts);
    if p != t {
      Fewer(counts, p);
      Fewer(counts, t);
      SumWithout(counts - {p}, t);
      SumWithout(counts - {t}, p);
      assert counts - {p} - {t} == counts - {t} - {p};
    }
  }

  lemma {:induction false} CountsSum(tiers: seq<string>, counts: map<string, nat>)
    requires Counted(tiers, counts)
    ensures SumOf(counts) == |tiers|
    decreases |tiers|
  {
    if tiers == [] {
      assert counts == map[];
    } else {
      var k := |tiers| - 1;
      var t := tiers[k];
      assert tiers == tiers[..k] + [t];
      assert t in tiers && t in counts;
      var less := if counts[t] == 1 then counts - {t} else counts[t := counts[t] - 1];
      CountedLess(tiers[..k], t, counts);
      CountsSum(tiers[..k], less);
      SumWithout(counts, t);
      if counts[t] != 1 {
        SumWithout(less, t);
        assert less - {t} == counts - {t};
      }
    }
  }

  lemma CountedLess(tiers: seq<string>, t: string, counts: map<string, nat>)
    requires Counted(tiers + [t], counts)
    ensures t in counts && counts[t] > 0
    ensures Counted(tiers, if counts[t] == 1 then counts - {t} else counts[t := counts[t] - 1])
  {
    assert t in tiers + [t];
    assert counts[t] == multiset(tiers)[t] + 1;
    assert t in tiers <==> t in multiset(tiers);
    assert forall u :: u in tiers + [t] <==> u in tiers || u == t;
  }

  /** A response shows one page of the answer, its size, and how many of its hits each tier won; the
      counts add up to the size. */
  ghost predicate Shows(response: Response, all: seq<Hit>, limit: nat, offset: nat) {
    && response.page == Page(all, limit, offset) && response.total == |all|
    && Counted(Tiers(all), response.counts) && SumOf(response.counts) == response.total
  }

  // What the answer says of the layers

  /** The tiers, the best first. */
  const TIERS: seq<string> := ["ITEM_AUTO", "VENDOR_OFFER", "ITEM_SUGGESTED", "REQUEST_HISTORY", "ITEM_FUZZY"]

  /** The tier an item search result counts under. */
  predicate ItemTier(matchTier: string, tier: string) {
    && (matchTier == "AUTO_MATCH" ==> tier == "ITEM_AUTO")
    && (matchTier == "SUGGESTED" ==> tier == "ITEM_SUGGESTED")
    && (matchTier != "AUTO_MATCH" && matchTier != "SUGGESTED" ==> tier == "ITEM_FUZZY")
  }

  ghost predicate FromItems(items: seq<ItemHit>, id: int, tier: string, score: real) {
    exists k :: 0 <= k < |items| && items[k].id == id && items[k].score == score && ItemTier(items[k].matchTier, tier)
  }

  ghost predicate FromOffers(offers: seq<OfferHit>, id: int, tier: string, score: real) {
    tier == "VENDOR_OFFER" && exists k :: 0 <= k < |offers| && offers[k].itemId == id && offers[k].score == score
  }

  ghost predicate FromRequests(requests: seq<RequestHit>, id: int, tier: string, score: real) {
    && tier == "REQUEST_HISTORY"
    && exists k :: 0 <= k < |requests| && requests[k].itemId == id && requests[k].score == score
  }

  /** Some layer found the item, in the tier and with the score. */
  ghost predicate Given(items: seq<ItemHit>, offers: seq<OfferHit>, requests: seq<RequestHit>, id: int, tier: string,
      score: real) {
    FromItems(items, id, tier, score) || FromOffers(offers, id, tier, score) || FromRequests(requests, id, tier, score)
  }

  /** The tier and score come no later in the order of the tiers and, in one tier, of the scores. */
  ghost predicate NoWorse(tier: string, score: real, other: string, otherScore: real) {
    exists a, b :: 0 <= a <= b < |TIERS| && TIERS[a] == tier && TIERS[b] == other && (a == b ==> score >= otherScore)
  }

  /** The hits stand by tier, then by score, then by id. */
  ghost predicate BestFirst(all: seq<Hit>) {
    forall i, j :: 0 <= i < j < |all| ==>
      && NoWorse(all[i].tier, all[i].score, all[j].tier, all[j].score)
      && (all[i].tier == all[j].tier && all[i].score == all[j].score ==> all[i].id < all[j].id)
  }

  /** The hit's tier and score were given by a layer, none gave a better one, and its tiers are those given. */
  ghost predicate GivenBest(items: seq<ItemHit>, offers: seq<OfferHit>, requests: seq<RequestHit>, h: Hit) {
    && Given(items, offers, requests, h.id, h.tier, h.score)
    && (forall tier, score {:trigger Given(items, offers, requests, h.id, tier, score)} ::
          Given(items, offers, requests, h.id, tier, score) ==>
          NoWorse(h.tier, h.score, tier, score) && tier in h.tiers)
    && (forall tier :: tier in h.tiers ==> exists score :: Given(items, offers, requests, h.id, tier, score))
  }

  ghost predicate AllGiven(items: seq<ItemHit>, offers: seq<OfferHit>, requests: seq<RequestHit>, all: seq<Hit>) {
    forall k {:trigger all[k]} :: 0 <= k < |all| ==> GivenBest(items, offers, requests, all[k])
  }

  /** Every item some layer found is listed, if the filter lets it through. */
  ghost predicate AllListed(items: seq<ItemHit>, offers: seq<OfferHit>, requests: seq<RequestHit>,
      meta: map<int, Meta>, onlyActive: Option<bool>, all: seq<Hit>) {
    forall id, tier, score {:trigger Given(items, offers, requests, id, tier, score)} ::
      Given(items, offers, requests, id, tier, score) && WantedId(meta, onlyActive, id) ==> Lists(all, id)
  }

  /** The weights are the places of the tiers, counted from the end. */
  lemma WeightIsPlace(tier: string) returns (a: nat)
    requires Known(tier)
    ensures a < |TIERS| && TIERS[a] == tier && TierWeight(tier) == |TIERS| - a
  {
    a := |TIERS| - TierWeight(tier);
  }

  lemma NotBetterNoWorse(tier: string, score: real, other: string, otherScore: real)
    requires Known(tier) && Known(other) && !Better(other, otherScore, tier, score)
    ensures NoWorse(tier, score, other, otherScore)
  {
    var a := WeightIsPlace(tier);
    var b := WeightIsPlace(other);
    assert TIERS[a] == tier && TIERS[b] == other;
  }

  lemma ContributionGiven(items: seq<ItemHit>, offers: seq<OfferHit>, requests: seq<RequestHit>, k: nat)
    requires k < |Contributions(items, offers, requests)|
    ensures var c := Contributions(items, offers, requests)[k];
      Known(c.tier) && Given(items, offers, requests, c.id, c.tier, c.score)
  {
    var c := Contributions(items, offers, requests)[k];
    if k < |items| {
      assert items[k].id == c.id;
    } else if k < |items| + |offers| {
      assert offers[k - |items|].itemId == c.id;
    } else {
      assert requests[k - |items| - |offers|].itemId == c.id;
    }
  }

  lemma GivenContribution(items: seq<ItemHit>, offers: seq<OfferHit>, requests: seq<RequestHit>, id: int,
      tier: string, score: real)
    requires Given(items, offers, requests, id, tier, score)
    ensures Offered(Contributions(items, offers, requests), id, tier, score)
  {
    var cs := Contributions(items, offers, requests);
    if FromItems(items, id, tier, score) {
      var k :| 0 <= k < |items| && items[k].id == id && items[k].score == score && ItemTier(items[k].matchTier, tier);
      assert cs[k].id == id && cs[k].tier == tier && cs[k].score == score;
    } else if FromOffers(offers, id, tier, score) {
      var k :| 0 <= k < |offers| && offers[k].itemId == id && offers[k].score == score;
      assert cs[|items| + k].id == id && cs[|items| + k].tier == tier && cs[|items| + k].score == score;
    } else {
      var k :| 0 <= k < |requests| && requests[k].itemId == id && requests[k].score == score;
      var n := |items| + |offers| + k;
      assert cs[n].id == id && cs[n].tier == tier && cs[n].score == score;
    }
  }

  lemma ToldIsGiven(items: seq<ItemHit>, offers: seq<OfferHit>, requests: seq<RequestHit>, id: int, told: Hit)
    requires Told(Contributions(items, offers, requests), id, told)
    ensures Known(told.tier) && GivenBest(items, offers, requests, told)
  {
    var cs := Contributions(items, offers, requests);
    var k :| 0 <= k < |cs| && cs[k].id == id && cs[k].tier == told.tier && cs[k].score == told.score;
    ContributionGiven(items, offers, requests, k);
    forall tier, score | Given(items, offers, requests, id, tier, score)
      ensures NoWorse(told.tier, told.score, tier, score) && tier in told.tiers
    {
      GivenContribution(items, offers, requests, id, tier, score);
      var j :| 0 <= j < |cs| && cs[j].id == id && cs[j].tier == tier && cs[j].score == score;
      ContributionGiven(items, offers, requests, j);
      NotBetterNoWorse(told.tier, told.score, tier, score);
    }
    forall tier | tier in told.tiers
      ensures exists score :: Given(items, offers, requests, id, tier, score)
    {
      var j :| 0 <= j < |cs| && cs[j].id == id && cs[j].tier == tier;
      ContributionGiven(items, offers, requests, j);
    }
  }

  lemma AnswerByLayers(items: seq<ItemHit>, offers: seq<OfferHit>, requests: seq<RequestHit>, meta: map<int, Meta>,
      onlyActive: Option<bool>, all: seq<Hit>)
    requires Answer(Contributions(items, offers, requests), meta, onlyActive, all)
    ensures BestFirst(all) && AllGiven(items, offers, requests, all)
    ensures AllListed(items, offers, requests, meta, onlyActive, all)
  {
    forall id, tier, score | Given(items, offers, requests, id, tier, score) && WantedId(meta, onlyActive, id)
      ensures Lists(all, id)
    {
      GivenContribution(items, offers, requests, id, tier, score);
      assert Mentions(Contributions(items, offers, requests), id);
    }
    forall k {:trigger all[k]} | 0 <= k < |all|
      ensures Known(all[k].tier) && GivenBest(items, offers, requests, all[k])
    {
      FromSeenGiven(items, offers, requests, meta, onlyActive, all[k]);
    }
    forall i, j | 0 <= i < j < |all|
      ensures NoWorse(all[i].tier, all[i].score, all[j].tier, all[j].score)
      ensures all[i].tier == all[j].tier && all[i].score == all[j].score ==> all[i].id < all[j].id
    {
      assert !Before(all[j], all[i]);
      NotBetterNoWorse(all[i].tier, all[i].score, all[j].tier, all[j].score);
    }
  }

  lemma FromSeenGiven(items: seq<ItemHit>, offers: seq<OfferHit>, requests: seq<RequestHit>, meta: map<int, Meta>,
      onlyActive: Option<bool>, h: Hit)
    requires FromSeen(Contributions(items, offers, requests), meta, onlyActive, h)
    ensures Known(h.tier) && GivenBest(items, offers, requests, h)
  {
    var told :| Told(Contributions(items, offers, requests), h.id, told) && h == Finished(told, MetaOf(meta, h.id)) &&
      Wanted(h, onlyActive);
    ToldIsGiven(items, offers, requests, h.id, told);
  }

  /** Merges the layers, ranks the hits and returns one page, with totals over every hit. */
  method MergeAdvanced(items: seq<ItemHit>, offers: seq<OfferHit>, requests: seq<RequestHit>, meta: map<int, Meta>,
                       onlyActive: Option<bool>, limit: nat, offset: nat)
    returns (response: Response)
    ensures exists all: seq<Hit> | Answer(Contributions(items, offers, requests), meta, onlyActive, all) &&
        BestFirst(all) && AllGiven(items, offers, requests, all) &&
        AllListed(items, offers, requests, meta, onlyActive, all) ::
      Shows(response, all, limit, offset)
  {
    var r := new Ranking();
    var cs := Contributions(items, offers, requests);
    for k := 0 to |cs|
      invariant fresh(r) && r.Valid() && r.seen == cs[..k]
    {
      assert cs[..k + 1] == cs[..k] + [cs[k]];
      r.Upsert(cs[k]);
    }
    assert cs[..|cs|] == cs;
    var out := Collect(r, meta, onlyActive);
    var ranked := Sort(Before, out);
    BeforeOrders();
    SortSorted(Before, out);
    assert forall id :: Mentions(r.seen, id) ==> id in r.hits;
    RankedAnswer(r.seen, meta, onlyActive, out, ranked, r.hits.Keys);
    AnswerByLayers(items, offers, requests, meta, onlyActive, ranked);
    var counts := CountTiers(ranked);
    CountsSum(Tiers(ranked), counts);
    response := Response(|ranked|, Page(ranked, limit, offset), counts);
    assert Shows(response, ranked, limit, offset);
  }

  ghost predicate DistinctIds(hs: seq<Hit>) {
    forall a, b :: 0 <= a < b < |hs| ==> hs[a].id != hs[b].id
  }

  lemma RankedAnswer(seen: seq<Contribution>, meta: map<int, Meta>, onlyActive: Option<bool>, out: seq<Hit>,
      ranked: seq<Hit>, ids: set<int>)
    requires Sorted(Before, ranked) && multiset(ranked) == multiset(out)
    requires Collected(seen, meta, onlyActive, out, ids) && forall id :: Mentions(seen, id) ==> id in ids
    ensures Answer(seen, meta, onlyActive, ranked)
  {
    forall k | 0 <= k < |ranked|
      ensures FromSeen(seen, meta, onlyActive, ranked[k])
    {
      assert ranked[k] in multiset(ranked);
      assert ranked[k] in out;
    }
    PermutedIds(out, ranked);
    forall id | Mentions(seen, id) && WantedId(meta, onlyActive, id)
      ensures Lists(ranked, id)
    {
      assert id in ids && Lists(out, id);
      var k :| 0 <= k < |out| && out[k].id == id;
      assert out[k] in multiset(out);
      assert out[k] in ranked;
    }
  }

  lemma PermutedIds(xs: seq<Hit>, ys: seq<Hit>)
    requires multiset(xs) == multiset(ys) && DistinctIds(xs)
    ensures DistinctIds(ys)
  {
    forall a, b | 0 <= a < b < |ys|
      ensures ys[a].id != ys[b].id
    {
      assert ys == ys[..b] + ys[b..];
      assert multiset(ys) == multiset(ys[..b]) + multiset(ys[b..]);
      assert ys[..b][a] in multiset(ys[..b]) && ys[b..][0] in multiset(ys[b..]);
      assert ys[a] in multiset(xs) && ys[b] in multiset(xs);
      assert ys[a] in xs && ys[b] in xs;
      OneEach(xs, ys[a]);
    }
  }

  lemma OneEach(xs: seq<Hit>, h: Hit)
    requires DistinctIds(xs)
    ensures multiset(xs)[h] <= 1
  {
    if xs != [] {
      OneEach(xs[1..], h) by {
        assert forall k :: 0 <= k < |xs| - 1 ==> xs[1..][k] == xs[k + 1];
      }
      assert xs == [xs[0]] + xs[1..];
      if xs[0] == h {
        assert forall k :: 0 <= k < |xs| - 1 ==> xs[1..][k] == xs[k + 1] && xs[k + 1].id != h.id;
        assert h !in xs[1..];
      }
    }
  }

  // Why no order shows

  function Ranks(hs: seq<Hit>): (r: seq<Rank>)
    ensures |r| == |hs|
    ensures forall k :: 0 <= k < |hs| ==> r[k] == RankOf(hs[k])
  {
    seq(|hs|, k requires 0 <= k < |hs| => RankOf(hs[k]))
  }

  ghost predicate AllKnown(seen: seq<Contribution>) {
    forall k {:trigger seen[k]} :: 0 <= k < |seen| ==> Known(seen[k].tier)
  }

  /** The same contributions, whatever layer, list position or number of times they came in. */
  ghost predicate SameContributions(one: seq<Contribution>, other: seq<Contribution>) {
    forall id, tier, score :: Offered(one, id, tier, score) <==> Offered(other, id, tier, score)
  }

  ghost predicate Offered(seen: seq<Contribution>, id: int, tier: string, score: real) {
    exists k :: 0 <= k < |seen| && seen[k].id == id && seen[k].tier == tier && seen[k].score == score
  }

  /** A weight above zero belongs to one tier. */
  lemma WeightNamesTier(a: string, b: string)
    requires Known(a) && TierWeight(a) == TierWeight(b)
    ensures a == b
  {
  }

  /** The winning tier and score of an id depend on what was offered, not on how it came. */
  lemma BestAgrees(one: seq<Contribution>, other: seq<Contribution>, id: int, a: Hit, b: Hit)
    requires SameContributions(one, other) && AllKnown(one)
    requires Told(one, id, a) && Told(other, id, b)
    ensures RankOf(a) == RankOf(b)
  {
    assert Offered(one, id, a.tier, a.score) && Offered(other, id, b.tier, b.score);
    assert Offered(other, id, a.tier, a.score) && Offered(one, id, b.tier, b.score);
    WeightNamesTier(a.tier, b.tier);
  }

  lemma MentionsAgree(one: seq<Contribution>, other: seq<Contribution>, id: int)
    requires SameContributions(one, other) && Mentions(one, id)
    ensures Mentions(other, id)
  {
    var k :| 0 <= k < |one| && one[k].id == id;
    assert Offered(one, id, one[k].tier, one[k].score);
    assert Offered(other, id, one[k].tier, one[k].score);
  }

  lemma RanksCovered(one: seq<Contribution>, other: seq<Contribution>, meta: map<int, Meta>, onlyActive: Option<bool>,
      out: seq<Hit>, out2: seq<Hit>, r: Rank)
    requires SameContributions(one, other) && AllKnown(one)
    requires Answer(one, meta, onlyActive, out) && Answer(other, meta, onlyActive, out2)
    requires r in Ranks(out)
    ensures r in Ranks(out2)
  {
    var k :| 0 <= k < |out| && Ranks(out)[k] == r;
    assert FromSeen(one, meta, onlyActive, out[k]);
    var told :| Told(one, out[k].id, told) && out[k] == Finished(told, MetaOf(meta, out[k].id)) &&
      Wanted(out[k], onlyActive);
    var m :| 0 <= m < |one| && one[m].id == out[k].id && one[m].tier == told.tier && one[m].score == told.score;
    MentionsAgree(one, other, out[k].id);
    assert Lists(out2, out[k].id);
    var j :| 0 <= j < |out2| && out2[j].id == out[k].id;
    assert FromSeen(other, meta, onlyActive, out2[j]);
    var told2 :| Told(other, out2[j].id, told2) && out2[j] == Finished(told2, MetaOf(meta, out2[j].id)) &&
      Wanted(out2[j], onlyActive);
    BestAgrees(one, other, out[k].id, told, told2);
    assert Ranks(out2)[j] == r;
  }

  /** The ranked ids, tiers and scores are the same for every order the layers' rows arrive in and
      every order the hit table is read in. */
  lemma AnswerIndependentOfOrder(one: seq<Contribution>, other: seq<Contribution>, meta: map<int, Meta>,
      onlyActive: Option<bool>, out: seq<Hit>, out2: seq<Hit>)
    requires SameContributions(one, other) && AllKnown(one) && AllKnown(other)
    requires Answer(one, meta, onlyActive, out) && Answer(other, meta, onlyActive, out2)
    ensures Ranks(out) == Ranks(out2)
  {
    var a, b := Ranks(out), Ranks(out2);
    forall r
      ensures r in a <==> r in b
    {
      if r in a {
        RanksCovered(one, other, meta, onlyActive, out, out2, r);
      }
      if r in b {
        RanksCovered(other, one, meta, onlyActive, out2, out, r);
      }
    }
    RanksSorted(out);
    RanksSorted(out2);
    SameSetSameBag(a, b);
    OneOrder(a, b);
  }

  /** Ranks with different ids are never tied, so their sorted order is the only one. */
  lemma OneOrder(a: seq<Rank>, b: seq<Rank>)
    requires Sorted(RankBefore, a) && Sorted(RankBefore, b) && multiset(a) == multiset(b) && DistinctRanks(a)
    ensures a == b
  {
    BeforeOrders();
    forall x, y | x in a && y in a && !RankBefore(x, y) && !RankBefore(y, x)
      ensures x == y
    {
      var i :| 0 <= i < |a| && a[i] == x;
      var j :| 0 <= j < |a| && a[j] == y;
      assert i == j;
    }
    SortedUnique(RankBefore, a, b);
  }

  lemma RanksSorted(out: seq<Hit>)
    requires Sorted(Before, out) && DistinctIds(out)
    ensures Sorted(RankBefore, Ranks(out))
    ensures DistinctRanks(Ranks(out))
  {
    forall i, j | 0 <= i < j < |out|
      ensures !RankBefore(Ranks(out)[j], Ranks(out)[i])
    {
      assert !Before(out[j], out[i]);
    }
  }

  ghost predicate DistinctRanks(rs: seq<Rank>) {
    forall i, j :: 0 <= i < j < |rs| ==> rs[i].id != rs[j].id
  }

  lemma RankOnce(rs: seq<Rank>, r: Rank)
    requires DistinctRanks(rs)
    ensures multiset(rs)[r] == if r in rs then 1 else 0
  {
    if rs != [] {
      assert forall k :: 0 <= k < |rs| - 1 ==> rs[1..][k] == rs[k + 1];
      RankOnce(rs[1..], r);
      assert rs == [rs[0]] + rs[1..];
      if rs[0] == r {
        assert r !in rs[1..];
      }
    }
  }

  lemma SameSetSameBag(a: seq<Rank>, b: seq<Rank>)
    requires DistinctRanks(a) && DistinctRanks(b) && forall r :: r in a <==> r in b
    ensures multiset(a) == multiset(b)
  {
    forall r: Rank
      ensures multiset(a)[r] == multiset(b)[r]
    {
      RankOnce(a, r);
      RankOnce(b, r);
    }
  }

  // Paging

  function Pages(out: seq<Hit>, limit: nat, n: nat): seq<Hit> {
    if n == 0 then [] else Pages(out, limit, n - 1) + Page(out, limit, (n - 1) * limit)
  }

  /** Consecutive pages concatenate to the ranked list, cut where they end; enough of them are all
      of it. */
  lemma {:induction false} PagesConcatenate(out: seq<Hit>, limit: nat, n: nat)
    ensures Pages(out, limit, n) == out[..Min(n * limit, |out|)]
  {
    if n > 0 {
      PagesConcatenate(out, limit, n - 1);
      assert n * limit == (n - 1) * limit + limit;
      var start := Min((n - 1) * limit, |out|);
      assert out[..start] + out[start..Min(start + limit, |out|)] == out[..Min(start + limit, |out|)];
    }
  }
}

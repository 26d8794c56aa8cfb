/** Merging the three search layers into one ranked, paged answer. */
module SearchMerge {
  import opened Wrappers

  /** What a layer adds to a hit besides its tier and score. */
  datatype Extra = FromItem(name: string) | FromOffer(vendor: nat) | FromRequest(text: string)

  datatype Contribution = Contribution(id: int, tier: string, score: real, extra: Extra)

  datatype ItemHit = ItemHit(id: int, matchTier: string, score: real, name: string)
  datatype OfferHit = OfferHit(itemId: int, score: real, vendor: nat)
  datatype RequestHit = RequestHit(itemId: int, score: real, text: string)

  datatype Meta = Meta(active: bool, name: string)

  datatype Hit = Hit(
    id: int,
    tier: string,
    score: real,
    tiers: seq<string>,
    name: string,
    vendor: Option<nat>,
    request: Option<string>,
    active: bool
  )

  function TierWeight(tier: string): nat {
    if tier == "ITEM_AUTO" then 5
    else if tier == "VENDOR_OFFER" then 4
    else if tier == "ITEM_SUGGESTED" then 3
    else if tier == "REQUEST_HISTORY" then 2
    else if tier == "ITEM_FUZZY" then 1
    else 0
  }

  function ClassifyItem(t: string): (tier: string)
    ensures TierWeight(tier) > 0
  {
    if t == "AUTO_MATCH" then "ITEM_AUTO" else if t == "SUGGESTED" then "ITEM_SUGGESTED" else "ITEM_FUZZY"
  }

  /** A tier some layer can give: its weight names it. */
  predicate Known(tier: string) {
    TierWeight(tier) > 0
  }

  /** Strictly better: a heavier tier, or the same weight with a higher score. */
  predicate Better(tier: string, score: real, than: string, thanScore: real) {
    TierWeight(tier) > TierWeight(than) || (TierWeight(tier) == TierWeight(than) && score > thanScore)
  }

  // What the contributions say of one id

  ghost predicate Mentions(seen: seq<Contribution>, id: int) {
    exists k :: 0 <= k < |seen| && seen[k].id == id
  }

  /** (tier, score) is one of the id's contributions, and none is better. */
  ghost predicate Best(seen: seq<Contribution>, id: int, tier: string, score: real) {
    && (exists k :: 0 <= k < |seen| && seen[k].id == id && seen[k].tier == tier && seen[k].score == score)
    && (forall k :: 0 <= k < |seen| && seen[k].id == id ==> !Better(seen[k].tier, seen[k].score, tier, score))
  }

  ghost predicate TiersOf(seen: seq<Contribution>, id: int, tiers: seq<string>) {
    && (forall a, b :: 0 <= a < b < |tiers| ==> tiers[a] != tiers[b])
    && (forall t :: t in tiers <==> exists k :: 0 <= k < |seen| && seen[k].id == id && seen[k].tier == t)
  }

  /** The first item name that is not empty, the first vendor, the first request text. */
  function NameOf(seen: seq<Contribution>, id: int): string
    decreases |seen|
  {
    if seen == [] then ""
    else
      var c, before := seen[|seen| - 1], NameOf(seen[..|seen| - 1], id);
      if before == "" && c.id == id && c.extra.FromItem? then c.extra.name else before
  }

  function VendorOf(seen: seq<Contribution>, id: int): Option<nat>
    decreases |seen|
  {
    if seen == [] then None
    else
      var c, before := seen[|seen| - 1], VendorOf(seen[..|seen| - 1], id);
      if before.None? && c.id == id && c.extra.FromOffer? then Some(c.extra.vendor) else before
  }

  function RequestOf(seen: seq<Contribution>, id: int): Option<string>
    decreases |seen|
  {
    if seen == [] then None
    else
      var c, before := seen[|seen| - 1], RequestOf(seen[..|seen| - 1], id);
      if before.None? && c.id == id && c.extra.FromRequest? then Some(c.extra.text) else before
  }

  lemma ExtrasAfter(seen: seq<Contribution>, c: Contribution, id: int)
    ensures NameOf(seen + [c], id) == if NameOf(seen, id) == "" && c.id == id &&
      c.extra.FromItem? then c.extra.name else NameOf(seen, id)
    ensures VendorOf(seen + [c], id) == if VendorOf(seen, id).None? && c.id == id &&
      c.extra.FromOffer? then Some(c.extra.vendor) else VendorOf(seen, id)
    ensures RequestOf(seen + [c], id) == if RequestOf(seen, id).None? && c.id == id &&
      c.extra.FromRequest? then Some(c.extra.text) else RequestOf(seen, id)
  {
    assert (seen + [c])[..|seen|] == seen;
  }

  lemma NoMentionNoExtras(seen: seq<Contribution>, id: int)
    requires !Mentions(seen, id)
    ensures NameOf(seen, id) == "" && VendorOf(seen, id).None? && RequestOf(seen, id).None?
    decreases |seen|
  {
    if seen != [] {
      assert seen[|seen| - 1].id != id;
      assert forall k :: 0 <= k < |seen| - 1 ==> seen[..|seen| - 1][k] == seen[k];
      NoMentionNoExtras(seen[..|seen| - 1], id);
    }
  }

  /** A hit says what the contributions say. */
  ghost predicate Told(seen: seq<Contribution>, id: int, h: Hit) {
    && h.id == id
    && Best(seen, id, h.tier, h.score)
    && TiersOf(seen, id, h.tiers)
    && h.name == NameOf(seen, id) && h.vendor == VendorOf(seen, id) && h.request == RequestOf(seen, id)
  }

  function Enriched(h: Hit, extra: Extra): Hit {
    match extra
    case FromItem(name) => if h.name == "" then h.(name := name) else h
    case FromOffer(vendor) => if h.vendor.None? then h.(vendor := Some(vendor)) else h
    case FromRequest(text) => if h.request.None? then h.(request := Some(text)) else h
  }

  // The table of hits

  class Ranking {
    var hits: map<int, Hit>
    ghost var seen: seq<Contribution>

    ghost predicate Valid()
      reads this
    {
      && (forall k {:trigger seen[k]} :: 0 <= k < |seen| ==> Known(seen[k].tier))
      && (forall id {:trigger id in hits} :: id in hits <==> Mentions(seen, id))
      && (forall id {:trigger id in hits} :: id in hits ==> Told(seen, id, hits[id]))
    }

    constructor ()
      ensures Valid() && seen == []
    {
      hits, seen := map[], [];
    }

    method Upsert(c: Contribution)
      requires Valid() && Known(c.tier)
      modifies this
      ensures Valid() && seen == old(seen) + [c]
    {
      var h;
      if c.id !in hits {
        h := Hit(c.id, c.tier, c.score, [c.tier], "", None, None, false);
        NoMentionNoExtras(seen, c.id);
        FirstTold(seen, c, h);
      } else {
        h := hits[c.id];
        if c.tier !in h.tiers {
          h := h.(tiers := h.tiers + [c.tier]);
        }
        if Better(c.tier, c.score, h.tier, h.score) {
          h := h.(tier := c.tier, score := c.score);
        }
        AgainTold(seen, c, hits[c.id], h);
      }
      h := Enriched(h, c.extra);
      forall id | id != c.id
        ensures Mentions(seen + [c], id) <==> Mentions(seen, id)
        ensures forall o :: Told(seen, id, o) ==> Told(seen + [c], id, o)
      {
        OthersTold(seen, c, id);
      }
      hits := hits[c.id := h];
      seen := seen + [c];
      assert seen[|seen| - 1].id == c.id;
    }
  }

  lemma FirstTold(seen: seq<Contribution>, c: Contribution, h: Hit)
    requires !Mentions(seen, c.id)
    requires h == Hit(c.id, c.tier, c.score, [c.tier], "", None, None, false)
    requires NameOf(seen, c.id) == "" && VendorOf(seen, c.id).None? && RequestOf(seen, c.id).None?
    ensures Told(seen + [c], c.id, Enriched(h, c.extra))
  {
    var now := seen + [c];
    assert now[|seen|] == c;
    assert forall k :: 0 <= k < |seen| ==> now[k] == seen[k];
    ExtrasAfter(seen, c, c.id);
  }

  lemma AgainTold(seen: seq<Contribution>, c: Contribution, was: Hit, h: Hit)
    requires Told(seen, c.id, was)
    requires h.id == was.id && h.name == was.name && h.vendor == was.vendor && h.request == was.request
    requires h.tiers == if c.tier in was.tiers then was.tiers else was.tiers + [c.tier]
    requires (h.tier, h.score) == if Better(c.tier, c.score, was.tier, was.score) then (c.tier, c.score)
      else (was.tier, was.score)
    ensures Told(seen + [c], c.id, Enriched(h, c.extra))
  {
    var now := seen + [c];
    assert now[|seen|] == c;
    assert forall k :: 0 <= k < |seen| ==> now[k] == seen[k];
    ExtrasAfter(seen, c, c.id);
    BestAgain(seen, c, was, h);
    TiersAgain(seen, c, was.tiers, h.tiers);
  }

  lemma BestAgain(seen: seq<Contribution>, c: Contribution, was: Hit, h: Hit)
    requires Best(seen, c.id, was.tier, was.score)
    requires (h.tier, h.score) == if Better(c.tier, c.score, was.tier, was.score) then (c.tier, c.score)
      else (was.tier, was.score)
    ensures Best(seen + [c], c.id, h.tier, h.score)
  {
    var now := seen + [c];
    var k :| 0 <= k < |seen| && seen[k].id == c.id && seen[k].tier == was.tier && seen[k].score == was.score;
    assert now[k] == seen[k] && now[|seen|] == c;
    assert forall j :: 0 <= j < |seen| ==> now[j] == seen[j];
  }

  lemma TiersAgain(seen: seq<Contribution>, c: Contribution, was: seq<string>, tiers: seq<string>)
    requires TiersOf(seen, c.id, was) && tiers == if c.tier in was then was else was + [c.tier]
    ensures TiersOf(seen + [c], c.id, tiers)
  {
    var now := seen + [c];
    assert now[|seen|] == c && forall k :: 0 <= k < |seen| ==> now[k] == seen[k];
    forall t
      ensures t in tiers <==> exists k :: 0 <= k < |now| && now[k].id == c.id && now[k].tier == t
    {
      assert t in tiers <==> t in was || t == c.tier;
      if exists k :: 0 <= k < |seen| && seen[k].id == c.id && seen[k].tier == t {
        var k :| 0 <= k < |seen| && seen[k].id == c.id && seen[k].tier == t;
        assert now[k] == seen[k];
      }
    }
  }

  lemma OthersTold(seen: seq<Contribution>, c: Contribution, id: int)
    requires id != c.id
    ensures Mentions(seen + [c], id) <==> Mentions(seen, id)
    ensures forall o :: Told(seen, id, o) ==> Told(seen + [c], id, o)
  {
    var now := seen + [c];
    assert now[|seen|] == c && forall k :: 0 <= k < |seen| ==> now[k] == seen[k];
    ExtrasAfter(seen, c, id);
    forall o | Told(seen, id, o)
      ensures Told(now, id, o)
    {
      var k :| 0 <= k < |seen| && seen[k].id == id && seen[k].tier == o.tier && seen[k].score == o.score;
      assert now[k] == seen[k];
      forall t
        ensures t in o.tiers <==> exists j :: 0 <= j < |now| && now[j].id == id && now[j].tier == t
      {
        if t in o.tiers {
          var j :| 0 <= j < |seen| && seen[j].id == id && seen[j].tier == t;
          assert now[j] == seen[j];
        }
      }
    }
  }
}

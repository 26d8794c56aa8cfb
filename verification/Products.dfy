/** The run from variants to products: every tier in order, then the items that remain. */
module Products {
  import opened Wrappers
  import opened Guards
  import opened DistinctLists
  import opened DisjointSets
  import opened Items
  import opened ImpaGroups
  import opened IdenticalTier
  import opened Catalogue
  import C = Clusters

  /** One product: its variants in order and the code it carries. */
  datatype Product = Product(members: seq<nat>, code: Option<Code>)

  datatype Stats = Stats(impaMerges: nat, autoMerges: nat, overrideMerges: nat, conflicting: set<Code>)

  /** Every variant is listed, in order, under its own root. */
  ghost predicate Gathered(root: seq<nat>, clusters: map<nat, seq<nat>>, upTo: nat) {
    && (forall i :: 0 <= i < upTo <= |root| ==> root[i] in clusters && i in clusters[root[i]])
    && (forall r {:trigger clusters[r]} :: r in clusters ==> clusters[r] != [] && NoRepeats(clusters[r]))
    && (forall r, k {:trigger clusters[r][k]} :: r in clusters && 0 <= k < |clusters[r]| ==>
          clusters[r][k] < upTo <= |root| && root[clusters[r][k]] == r)
  }

  method Gather(uf: C.Clusters) returns (clusters: map<nat, seq<nat>>)
    requires uf.Ok()
    modifies uf.sets`parent
    ensures uf.Ok() && Gathered(uf.sets.root, clusters, |uf.variants|)
    ensures clusters.Keys == Roots(uf.sets.root)
  {
    clusters := map[];
    ghost var root := uf.sets.root;
    for i := 0 to |uf.variants|
      invariant uf.Ok() && Gathered(root, clusters, i)
    {
      var r := uf.Find(i);
      var listed := if r in clusters then clusters[r] else [];
      OneMoreGathered(root, clusters, i, listed);
      clusters := clusters[r := listed + [i]];
    }
    RootsGathered(uf.variants, uf.View(), clusters);
  }

  lemma OneMoreGathered(root: seq<nat>, clusters: map<nat, seq<nat>>, i: nat, listed: seq<nat>)
    requires i < |root| && Gathered(root, clusters, i)
    requires listed == if root[i] in clusters then clusters[root[i]] else []
    ensures Gathered(root, clusters[root[i] := listed + [i]], i + 1)
  {
    var more := clusters[root[i] := listed + [i]];
    forall x | x in listed
      ensures x < i
    {
      var k :| 0 <= k < |listed| && listed[k] == x;
    }
    NoRepeatsAppend(listed, [i]);
    forall j | 0 <= j < i + 1
      ensures root[j] in more && j in more[root[j]]
    {
      if j == i {
        assert (listed + [i])[|listed|] == i;
      } else {
        assert root[j] in clusters && j in clusters[root[j]];
      }
    }
  }

  lemma RootsGathered(vs: seq<Variant>, s: State, clusters: map<nat, seq<nat>>)
    requires Shaped(vs, s) && Gathered(s.root, clusters, |vs|)
    ensures clusters.Keys == Roots(s.root)
  {
    forall r | r in clusters
      ensures r in Roots(s.root)
    {
      var i := clusters[r][0];
      assert s.root[i] == r && RootAt(s.root, i);
    }
    assert forall r :: r in Roots(s.root) ==> s.root[r] in clusters;
  }

  /** The one code a class holds. */
  method CodeOf(impa: seq<Option<Code>>, members: seq<nat>) returns (code: Option<Code>)
    requires forall k :: 0 <= k < |members| ==> members[k] < |impa|
    requires forall k, l |
      0 <= k < |members| && 0 <= l < |members| && impa[members[k]].Some? && impa[members[l]].Some? ::
      impa[members[k]] == impa[members[l]]
    ensures code.Some? ==> exists k :: 0 <= k < |members| && impa[members[k]] == code
    ensures forall k :: 0 <= k < |members| && impa[members[k]].Some? ==> impa[members[k]] == code
  {
    code := None;
    for k := 0 to |members|
      invariant code.Some? ==> exists l :: 0 <= l < k && impa[members[l]] == code
      invariant forall l :: 0 <= l < k && impa[members[l]].Some? ==> impa[members[l]] == code
    {
      if impa[members[k]].Some? {
        code := impa[members[k]];
      }
    }
  }

  /** What the products promise about codes, given the codes the lines came with. */
  ghost predicate OneItemPerCode(impa: seq<Option<Code>>, products: map<nat, Product>) {
    && (forall p, q |
          p in products && q in products && products[p].code.Some? && products[p].code == products[q].code :: p == q)
    && (forall p :: p in products && products[p].code.Some? ==>
          exists k :: 0 <= k < |products[p].members| && products[p].members[k] < |impa| &&
            impa[products[p].members[k]] == products[p].code)
  }

  ghost predicate KeptCode(products: map<nat, Product>, c: Code, m: nat) {
    exists p :: p in products && products[p].code == Some(c) && m in products[p].members
  }

  /** Whoever holds a code shares the item of everyone who holds it, and no item holds two. */
  lemma CodesSettledForGood(vs: seq<Variant>, score: Scorer, s: State, t: State, u: State)
    requires Shaped(vs, s) && Shaped(vs, t) && Valid(vs, u)
    requires Underway(vs, score, s, t, {}) && Coarser(t, u)
    ensures CodesFinal(vs, score, s.impa, u)
  {
    forall a: nat, b: nat | a < |vs| && b < |vs| && u.impa[a].Some? && u.impa[b].Some?
      ensures Same(u, a, b) <==> u.impa[a] == u.impa[b]
    {
      if u.impa[a] == u.impa[b] {
        assert Same(t, a, b);
      }
      if Same(u, a, b) {
        CodeOfClass(vs, u, a);
        CodeOfClass(vs, u, b);
        assert u.impa[a].value in {u.impa[b].value};
      }
    }
    forall m: nat | m < |vs| && u.impa[m].Some?
      ensures s.impa[m] == u.impa[m]
    {
      assert Stands(s, t, {}, m);
    }
  }

  lemma IdentityRoots(n: nat)
    ensures |Roots(seq(n, i => i))| == n
  {
    if n > 0 {
      IdentityRoots(n - 1);
      assert Roots(seq(n, i => i)) == Roots(seq(n - 1, i => i)) + {n - 1};
    }
  }

  /** What holds of the final items, whatever the overrides forced. */
  ghost predicate CodesFinal(vs: seq<Variant>, score: Scorer, impa: seq<Option<Code>>, u: State)
    requires |impa| == |vs| && Shaped(vs, u)
  {
    && (forall a: nat, b: nat {:trigger Same(u, a, b)} :: a < |vs| && b < |vs| && u.impa[a].Some? && u.impa[b].Some? ==>
          (Same(u, a, b) <==> u.impa[a] == u.impa[b]))
    && (forall m: nat {:trigger u.impa[m]} :: m < |vs| && u.impa[m].Some? ==> impa[m] == u.impa[m])
    && (forall c, m: nat {:trigger CodeDisputed(vs, score, impa, c), u.impa[m]} ::
          !CodeDisputed(vs, score, impa, c) && m < |vs| && impa[m] == Some(c) ==> u.impa[m] == Some(c))
  }

  /** The three tiers over a fresh clustering, one after another. */
  method RunTiers(uf: C.Clusters, score: Scorer, overrides: seq<seq<nat>>, ghost colour: seq<int>)
      returns (bad: set<nat>, stats: Stats)
    requires uf.Ok() && uf.View() == Initial(uf.variants, uf.impa) && Linked(uf.variants, uf.View())
    requires forall o :: 0 <= o < |overrides| ==> overrides[o] != [] && Indices(uf.variants, overrides[o])
    requires Grouped(uf.variants, uf.impa, overrides, colour)
    modifies uf, uf.sets
    ensures uf.Ok() && |old(uf.impa)| == |uf.variants|
    ensures CodesFinal(uf.variants, score, old(uf.impa), uf.View())
    ensures Finer(uf.sets.root, colour) && AllAlikeSettled(uf.variants, uf.View())
    ensures LinkedButByHand(uf.variants, uf.View(), overrides)
    ensures AllDecided(uf.variants, score, old(uf.impa), uf.impa, {})
    ensures forall o: nat :: o < |overrides| ==> (o !in bad <==> Honoured(uf.View(), overrides[o]))
    ensures |Roots(uf.sets.root)| + stats.impaMerges + stats.autoMerges + stats.overrideMerges == |uf.variants|
    ensures forall c :: c in stats.conflicting ==> CodeDisputed(uf.variants, score, old(uf.impa), c)
  {
    ghost var s := uf.View();
    assert s.root == seq(|uf.variants|, i => i);
    IdentityRoots(|uf.variants|);
    var impaMerges, conflicting := JoinByCode(uf, score);
    ghost var t := uf.View();
    ByCodeWithin(uf.variants, score, s, t, colour);
    ConflictsDisputed(uf.variants, score, s, t, conflicting);
    var autoMerges, rows := Merge(uf, colour);
    ghost var v := uf.View();
    MergeSettles(uf.variants, v);
    var overrideMerges;
    overrideMerges, bad := ApplyMerges(uf, overrides, colour);
    AlikeStaySettled(uf.variants, v, uf.View());
    LinkedThenByHand(uf.variants, v, uf.View(), overrides);
    CoarserTransitive(t, v, uf.View());
    CodesSettledForGood(uf.variants, score, s, t, uf.View());
    stats := Stats(impaMerges, autoMerges, overrideMerges, conflicting);
  }

  /** Any two variants with one key or one sorted key share an item, or a rule stands between their items. */
  ghost predicate AllAlikeSettled(vs: seq<Variant>, s: State)
    requires Shaped(vs, s)
  {
    forall i: nat, j: nat {:trigger EitherKey(vs, i, j)} :: EitherKey(vs, i, j) ==> Settled(vs, s, i, j)
  }

  ghost predicate EitherKey(vs: seq<Variant>, i: nat, j: nat) {
    i < |vs| && j < |vs| && (vs[i].feats.key == vs[j].feats.key || vs[i].feats.sortedKey == vs[j].feats.sortedKey)
  }

  lemma MergeSettles(vs: seq<Variant>, s: State)
    requires Valid(vs, s) && Linked(vs, s)
    requires forall i: nat, j: nat :: Alike(vs, Key, i, j) || Alike(vs, SortedKey, i, j) ==>
      Same(s, i, j) || ItemGuard(vs, s, i, j).Some?
    ensures AllAlikeSettled(vs, s)
  {
    forall i: nat, j: nat {:trigger EitherKey(vs, i, j)} | EitherKey(vs, i, j)
      ensures Settled(vs, s, i, j)
    {
      assert Alike(vs, Key, i, j) || Alike(vs, SortedKey, i, j);
      GuardIsCompleteLinkage(vs, s, i, j);
    }
  }

  lemma AlikeStaySettled(vs: seq<Variant>, s: State, t: State)
    requires Shaped(vs, s) && Shaped(vs, t) && Coarser(s, t) && AllAlikeSettled(vs, s)
    ensures AllAlikeSettled(vs, t)
  {
    forall i: nat, j: nat {:trigger EitherKey(vs, i, j)} | EitherKey(vs, i, j)
      ensures Settled(vs, t, i, j)
    {
      SettledPersists(vs, s, t, i, j);
    }
  }

  /** A grouping of the variants that keeps together those with one code, one key, one sorted key,
      or one override. */
  ghost predicate Grouped(vs: seq<Variant>, impa: seq<Option<Code>>, overrides: seq<seq<nat>>, colour: seq<int>)
    requires |impa| == |vs|
  {
    && Respected(vs, Key, colour) && Respected(vs, SortedKey, colour) && MergesRespected(vs, overrides, colour)
    && forall a, b :: 0 <= a < |vs| && 0 <= b < |vs| && impa[a].Some? && impa[a] == impa[b] ==> colour[a] == colour[b]
  }

  ghost predicate Placed(products: map<nat, Product>, m: nat) {
    exists p :: p in products && m in products[p].members
  }

  /** Each variant is in one product, once. */
  ghost predicate Partitioned(n: nat, products: map<nat, Product>) {
    && (forall m: nat {:trigger Placed(products, m)} :: m < n ==> Placed(products, m))
    && (forall p, q, m :: p in products && q in products && m in products[p].members && m in products[q].members ==>
      p == q)
    && (forall p :: p in products ==> products[p].members != [] && NoRepeats(products[p].members))
    && (forall p, m :: p in products && m in products[p].members ==> m < n)
  }

  ghost predicate InOneProduct(products: map<nat, Product>, lines: seq<nat>) {
    exists p :: p in products && forall k :: 0 <= k < |lines| ==> lines[k] in products[p].members
  }

  ghost predicate Within(products: map<nat, Product>, colour: seq<int>) {
    forall p, a, b |
      p in products && a in products[p].members && b in products[p].members && a < |colour| && b < |colour| ::
      colour[a] == colour[b]
  }

  /** Two lines that may be one item, said of what they are: no quotation lists them under two keys,
      nobody split them, they are of one kind, with the same marks and the same words of every group,
      and they are spelled alike but for spaces or have the same numbers, parts and short tokens. */
  ghost predicate Agree(vs: seq<Variant>, a: nat, b: nat)
    requires a < |vs| && b < |vs|
  {
    && (forall q :: q in vs[a].quotes && q in vs[b].quotes ==> vs[a].key == vs[b].key)
    && vs[a].split == vs[b].split
    && vs[a].feats.kind == vs[b].feats.kind && vs[a].feats.marks == vs[b].feats.marks
    && (forall g {:trigger WordsOf(vs[a].feats.variants, g)} ::
          WordsOf(vs[a].feats.variants, g) == WordsOf(vs[b].feats.variants, g))
    && (vs[a].feats.flatKey == vs[b].feats.flatKey ||
        (vs[a].feats.numbers == vs[b].feats.numbers && vs[a].feats.parts == vs[b].feats.parts &&
         vs[a].feats.shorts == vs[b].feats.shorts))
  }

  lemma AgreeIsUnblocked(vs: seq<Variant>, a: nat, b: nat)
    requires a < |vs| && b < |vs|
    ensures Agree(vs, a, b) <==> !LinesBlocked(vs, a, b)
  {
    var f, g := vs[a].feats, vs[b].feats;
    if x :| WordsOf(f.variants, x) != WordsOf(g.variants, x) {
      assert x in f.variants.Keys + g.variants.Keys;
      assert VariantsDiffer(f, g);
    }
  }

  /** The products of i and j block each other: they carry two codes, or a line of the one does not
      agree with a line of the other. */
  ghost predicate KeptApart(vs: seq<Variant>, products: map<nat, Product>, i: nat, j: nat) {
    exists p, q | p in products && q in products && i in products[p].members && j in products[q].members ::
      || (products[p].code.Some? && products[q].code.Some? && products[p].code != products[q].code)
      || exists a, b | a in products[p].members && b in products[q].members && a < |vs| && b < |vs| ::
           !Agree(vs, a, b)
  }

  /** The products carry the codes their lines hold, and who holds one was decided by fit. */
  ghost predicate CodesByFit(vs: seq<Variant>, score: Scorer, impa: seq<Option<Code>>, products: map<nat, Product>)
    requires |impa| == |vs|
  {
    exists held :: Carried(held, products) && AllDecided(vs, score, impa, held, {})
  }

  ghost predicate Carried(held: seq<Option<Code>>, products: map<nat, Product>) {
    forall p {:trigger products[p]} :: p in products ==> ProductOf(held, products[p].members, products[p])
  }

  ghost predicate HasOverride(overrides: seq<seq<nat>>, p: Product) {
    exists o :: 0 <= o < |overrides| && overrides[o] != [] && overrides[o][0] in p.members
  }

  /** The lines of a product agree, unless an override had a hand in it. */
  ghost predicate Agreeing(vs: seq<Variant>, overrides: seq<seq<nat>>, products: map<nat, Product>) {
    forall p, a, b | p in products && a in products[p].members && b in products[p].members && a < |vs| && b < |vs| ::
      Agree(vs, a, b) || HasOverride(overrides, products[p])
  }

  /** Lines of one item are unblocked, unless an override had a hand in it. */
  ghost predicate LinkedButByHand(vs: seq<Variant>, s: State, overrides: seq<seq<nat>>)
    requires Shaped(vs, s)
  {
    forall i: nat, j: nat {:trigger Same(s, i, j)} :: i < |vs| && j < |vs| && Same(s, i, j) ==>
      !LinesBlocked(vs, i, j) || Handled(s, overrides, i)
  }

  lemma LinkedThenByHand(vs: seq<Variant>, s: State, t: State, overrides: seq<seq<nat>>)
    requires Shaped(vs, s) && Shaped(vs, t) && Linked(vs, s) && JoinedByHand(s, t, overrides)
    ensures LinkedButByHand(vs, t, overrides)
  {
    forall i: nat, j: nat | i < |vs| && j < |vs| && Same(t, i, j)
      ensures !LinesBlocked(vs, i, j) || Handled(t, overrides, i)
    {
      if Same(s, i, j) {
        assert !PairBlocked(vs, s.impa, i, j);
      }
    }
  }

  lemma ProductsAgree(vs: seq<Variant>, u: State, clusters: map<nat, seq<nat>>, products: map<nat, Product>,
      overrides: seq<seq<nat>>)
    requires Shaped(vs, u) && Assembled(u, clusters, products) && LinkedButByHand(vs, u, overrides)
    ensures Agreeing(vs, overrides, products)
  {
    forall p, a, b | p in products && a in products[p].members && b in products[p].members && a < |vs| && b < |vs|
      ensures Agree(vs, a, b) || HasOverride(overrides, products[p])
    {
      MemberRoot(u, clusters, p, a);
      MemberRoot(u, clusters, p, b);
      assert Same(u, a, b);
      AgreeIsUnblocked(vs, a, b);
      if Handled(u, overrides, a) {
        var o :| 0 <= o < |overrides| && overrides[o] != [] && overrides[o][0] < |u.root| &&
          Same(u, overrides[o][0], a);
        CarriesCode(vs, u, clusters, products, overrides[o][0]);
      }
    }
  }

  /** Clusters the variants into products. Each variant is in one product. Each code is in one
      product or none, taken from a line that had it; which of its holders keep it was decided by
      fit, and a code whose holders do not block each other is kept by all of them. Any two variants
      with one key or one sorted key are in one product, unless the products of the two block each
      other. The lines of a product agree with each other, unless an override named one of them.
      Nothing is joined that no code, key or override links: the colour is an arbitrary grouping
      along those links. An override is reported exactly when its lines end in different products.
      Every merge counted removed one product. */
  method Build(vs: seq<Variant>, impa: seq<Option<Code>>, score: Scorer, overrides: seq<seq<nat>>,
      ghost colour: seq<int>)
    returns (products: map<nat, Product>, bad: set<nat>, stats: Stats)
    requires |impa| == |vs|
    requires forall o :: 0 <= o < |overrides| ==> overrides[o] != [] && Indices(vs, overrides[o])
    requires Grouped(vs, impa, overrides, colour)
    ensures Partitioned(|vs|, products)
    ensures OneItemPerCode(impa, products)
    ensures forall c, m: nat :: m < |vs| && impa[m] == Some(c) && !CodeDisputed(vs, score, impa, c) ==>
      KeptCode(products, c, m)
    ensures forall i: nat, j: nat | i < |vs| && j < |vs| &&
        (vs[i].feats.key == vs[j].feats.key || vs[i].feats.sortedKey == vs[j].feats.sortedKey) ::
      InOneProduct(products, [i, j]) || KeptApart(vs, products, i, j)
    ensures Within(products, colour) && Agreeing(vs, overrides, products)
    ensures forall o: nat :: o < |overrides| ==> (o !in bad <==> InOneProduct(products, overrides[o]))
    ensures |products| + stats.impaMerges + stats.autoMerges + stats.overrideMerges == |vs|
    ensures forall c :: c in stats.conflicting ==> CodeDisputed(vs, score, impa, c)
    ensures CodesByFit(vs, score, impa, products)
  {
    var uf := new C.Clusters(vs, impa);
    bad, stats := RunTiers(uf, score, overrides, colour);
    ghost var u := uf.View();
    var clusters := Gather(uf);
    assert uf.View() == u;
    SameCodeInClass(vs, score, impa, u);
    products := Assemble(uf.impa, clusters, u.root);
    ProductsPartition(vs, u, clusters, products);
    ProductsCodes(vs, score, impa, u, clusters, products);
    ProductsWithin(u, clusters, products, colour);
    AlikeProducts(vs, u, clusters, products);
    ProductsAgree(vs, u, clusters, products, overrides);
    assert Carried(u.impa, products);
    assert |products| == |products.Keys|;
    forall o: nat | o < |overrides|
      ensures Honoured(u, overrides[o]) <==> InOneProduct(products, overrides[o])
    {
      HonouredInOne(u, clusters, products, overrides[o]);
    }
  }

  lemma SameCodeInClass(vs: seq<Variant>, score: Scorer, impa: seq<Option<Code>>, u: State)
    requires |impa| == |vs| && Shaped(vs, u) && CodesFinal(vs, score, impa, u)
    ensures forall a, b ::
      0 <= a < |vs| && 0 <= b < |vs| && u.root[a] == u.root[b] && u.impa[a].Some? && u.impa[b].Some? ==>
      u.impa[a] == u.impa[b]
  {
    forall a, b | 0 <= a < |vs| && 0 <= b < |vs| && u.root[a] == u.root[b] && u.impa[a].Some? && u.impa[b].Some?
      ensures u.impa[a] == u.impa[b]
    {
      assert Same(u, a, b);
    }
  }

  lemma ByCodeWithin(vs: seq<Variant>, score: Scorer, s: State, t: State, colour: seq<int>)
    requires Shaped(vs, s) && Shaped(vs, t) && Underway(vs, score, s, t, {}) && |colour| == |vs|
    requires forall a, b :: 0 <= a < |vs| && 0 <= b < |vs| && s.impa[a].Some? && s.impa[a] == s.impa[b] ==>
      colour[a] == colour[b]
    ensures Finer(t.root, colour)
  {
    forall a, b | 0 <= a < |vs| && 0 <= b < |vs| && t.root[a] == t.root[b]
      ensures colour[a] == colour[b]
    {
      assert Same(t, a, b);
      assert Stands(s, t, {}, a) && Stands(s, t, {}, b);
    }
  }

  lemma ConflictsDisputed(vs: seq<Variant>, score: Scorer, s: State, t: State, conflicting: set<Code>)
    requires Shaped(vs, s) && Shaped(vs, t) && Underway(vs, score, s, t, {})
    requires forall c :: c in conflicting ==> Lost(s.impa, t.impa, c)
    ensures forall c :: c in conflicting ==> CodeDisputed(vs, score, s.impa, c)
  {
  }

  /** A product lists a class and carries the one code its members hold. */
  ghost predicate ProductOf(impa: seq<Option<Code>>, members: seq<nat>, p: Product) {
    && p.members == members
    && (p.code.Some? ==> exists k :: 0 <= k < |members| && members[k] < |impa| && impa[members[k]] == p.code)
    && (forall k :: 0 <= k < |members| && members[k] < |impa| && impa[members[k]].Some? ==> impa[members[k]] == p.code)
  }

  method Assemble(impa: seq<Option<Code>>, clusters: map<nat, seq<nat>>, ghost root: seq<nat>)
      returns (products: map<nat, Product>)
    requires |root| == |impa| && Gathered(root, clusters, |impa|)
    requires forall a, b ::
      0 <= a < |impa| && 0 <= b < |impa| && root[a] == root[b] && impa[a].Some? && impa[b].Some? ==> impa[a] == impa[b]
    ensures products.Keys == clusters.Keys
    ensures forall r {:trigger products[r]} :: r in products ==> ProductOf(impa, clusters[r], products[r])
  {
    products := map[];
    var todo := clusters.Keys;
    while todo != {}
      invariant todo <= clusters.Keys && products.Keys == clusters.Keys - todo
      invariant forall r {:trigger products[r]} :: r in products ==> ProductOf(impa, clusters[r], products[r])
      decreases |todo|
    {
      var r :| r in todo;
      ClassOneCode(impa, clusters, root, r);
      var code := CodeOf(impa, clusters[r]);
      products := products[r := Product(clusters[r], code)];
      todo := todo - {r};
    }
  }

  lemma ClassOneCode(impa: seq<Option<Code>>, clusters: map<nat, seq<nat>>, root: seq<nat>, r: nat)
    requires |root| == |impa| && Gathered(root, clusters, |impa|) && r in clusters
    requires forall a, b ::
      0 <= a < |impa| && 0 <= b < |impa| && root[a] == root[b] && impa[a].Some? && impa[b].Some? ==> impa[a] == impa[b]
    ensures forall k :: 0 <= k < |clusters[r]| ==> clusters[r][k] < |impa|
    ensures forall k, l |
      0 <= k < |clusters[r]| && 0 <= l < |clusters[r]| && impa[clusters[r][k]].Some? && impa[clusters[r][l]].Some? ::
      impa[clusters[r][k]] == impa[clusters[r][l]]
  {
  }

  /** The products list the classes and carry the one code each class holds. */
  ghost predicate Assembled(u: State, clusters: map<nat, seq<nat>>, products: map<nat, Product>) {
    && |u.root| == |u.impa| && Gathered(u.root, clusters, |u.root|)
    && products.Keys == clusters.Keys
    && (forall r {:trigger products[r]} :: r in products ==> ProductOf(u.impa, clusters[r], products[r]))
  }

  lemma MemberRoot(u: State, clusters: map<nat, seq<nat>>, p: nat, m: nat)
    requires Gathered(u.root, clusters, |u.root|) && p in clusters && m in clusters[p]
    ensures m < |u.root| && u.root[m] == p
  {
    var k :| 0 <= k < |clusters[p]| && clusters[p][k] == m;
  }

  lemma ProductsPartition(vs: seq<Variant>, u: State, clusters: map<nat, seq<nat>>, products: map<nat, Product>)
    requires Shaped(vs, u) && Assembled(u, clusters, products)
    ensures Partitioned(|vs|, products)
  {
    forall m: nat | m < |vs|
      ensures Placed(products, m)
    {
      assert u.root[m] in products && m in products[u.root[m]].members;
    }
    forall p, m | p in products && m in products[p].members
      ensures m < |vs| && u.root[m] == p
    {
      MemberRoot(u, clusters, p, m);
    }
  }

  lemma ProductsCodes(vs: seq<Variant>, score: Scorer, impa: seq<Option<Code>>, u: State, clusters: map<nat,
      seq<nat>>, products: map<nat, Product>)
    requires |impa| == |vs| && Shaped(vs, u) && CodesFinal(vs, score, impa, u) && Assembled(u, clusters, products)
    ensures OneItemPerCode(impa, products)
    ensures forall c, m: nat :: m < |vs| && impa[m] == Some(c) && !CodeDisputed(vs, score, impa, c) ==>
      KeptCode(products, c, m)
  {
    forall c, m: nat | m < |vs| && impa[m] == Some(c) && !CodeDisputed(vs, score, impa, c)
      ensures KeptCode(products, c, m)
    {
      assert u.impa[m] == Some(c);
      var p := u.root[m];
      assert p in products && m in products[p].members;
      var k :| 0 <= k < |clusters[p]| && clusters[p][k] == m;
      assert products[p].code == Some(c);
    }
    forall p, q | p in products && q in products && products[p].code.Some? && products[p].code == products[q].code
      ensures p == q
    {
      var k :| 0 <= k < |clusters[p]| && clusters[p][k] < |vs| && u.impa[clusters[p][k]] == products[p].code;
      var l :| 0 <= l < |clusters[q]| && clusters[q][l] < |vs| && u.impa[clusters[q][l]] == products[q].code;
      assert Same(u, clusters[p][k], clusters[q][l]);
    }
    forall p | p in products && products[p].code.Some?
      ensures exists k | 0 <= k < |products[p].members| && products[p].members[k] < |impa| ::
        impa[products[p].members[k]] == products[p].code
    {
      var k :| 0 <= k < |clusters[p]| && clusters[p][k] < |vs| && u.impa[clusters[p][k]] == products[p].code;
      assert impa[products[p].members[k]] == products[p].code;
    }
  }

  lemma ProductsWithin(u: State, clusters: map<nat, seq<nat>>, products: map<nat, Product>, colour: seq<int>)
    requires Assembled(u, clusters, products) && Finer(u.root, colour)
    ensures Within(products, colour)
  {
    forall p, a, b | p in products && a in products[p].members && b in products[p].members && a < |colour| &&
      b < |colour|
      ensures colour[a] == colour[b]
    {
      MemberRoot(u, clusters, p, a);
      MemberRoot(u, clusters, p, b);
    }
  }

  lemma AlikeProducts(vs: seq<Variant>, u: State, clusters: map<nat, seq<nat>>, products: map<nat, Product>)
    requires Shaped(vs, u) && Assembled(u, clusters, products) && AllAlikeSettled(vs, u)
    ensures forall i: nat, j: nat | i < |vs| && j < |vs| &&
        (vs[i].feats.key == vs[j].feats.key || vs[i].feats.sortedKey == vs[j].feats.sortedKey) ::
      InOneProduct(products, [i, j]) || KeptApart(vs, products, i, j)
  {
    forall i: nat, j: nat | i < |vs| && j < |vs| &&
        (vs[i].feats.key == vs[j].feats.key || vs[i].feats.sortedKey == vs[j].feats.sortedKey)
      ensures InOneProduct(products, [i, j]) || KeptApart(vs, products, i, j)
    {
      assert EitherKey(vs, i, j);
      SettledProducts(vs, u, clusters, products, i, j);
    }
  }

  lemma SettledProducts(vs: seq<Variant>, u: State, clusters: map<nat, seq<nat>>, products: map<nat, Product>,
      i: nat, j: nat)
    requires Shaped(vs, u) && Assembled(u, clusters, products) && i < |vs| && j < |vs| && Settled(vs, u, i, j)
    ensures InOneProduct(products, [i, j]) || KeptApart(vs, products, i, j)
  {
    var p, q := u.root[i], u.root[j];
    assert i in products[p].members && j in products[q].members;
    if !Same(u, i, j) {
      var a: nat, b: nat :| a < |vs| && b < |vs| && Same(u, a, i) && Same(u, b, j) && PairBlocked(vs, u.impa, a, b);
      CarriesCode(vs, u, clusters, products, a);
      CarriesCode(vs, u, clusters, products, b);
      AgreeIsUnblocked(vs, a, b);
    }
  }

  /** A variant's product lists it and carries its code. */
  lemma CarriesCode(vs: seq<Variant>, u: State, clusters: map<nat, seq<nat>>, products: map<nat, Product>, a: nat)
    requires Shaped(vs, u) && Assembled(u, clusters, products) && a < |vs|
    ensures u.root[a] in products && a in products[u.root[a]].members
    ensures u.impa[a].Some? ==> products[u.root[a]].code == u.impa[a]
  {
    var members := clusters[u.root[a]];
    var k :| 0 <= k < |members| && members[k] == a;
  }

  lemma HonouredInOne(u: State, clusters: map<nat, seq<nat>>, products: map<nat, Product>, lines: seq<nat>)
    requires Gathered(u.root, clusters, |u.root|) && lines != [] && forall k :: 0 <= k < |lines| ==> lines[k] < |u.root|
    requires products.Keys == clusters.Keys && forall r :: r in products ==> products[r].members == clusters[r]
    ensures Honoured(u, lines) <==> InOneProduct(products, lines)
  {
    if Honoured(u, lines) {
      var p := u.root[lines[0]];
      forall k | 0 <= k < |lines|
        ensures lines[k] in products[p].members
      {
        assert Same(u, lines[0], lines[k]);
        assert u.root[lines[k]] == p;
      }
    }
    if InOneProduct(products, lines) {
      var p :| p in products && forall k :: 0 <= k < |lines| ==> lines[k] in products[p].members;
      forall k | 0 <= k < |lines|
        ensures u.root[lines[k]] == p
      {
        MemberRoot(u, clusters, p, lines[k]);
      }
    }
  }
}

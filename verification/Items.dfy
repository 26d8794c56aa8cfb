/** The clustering of product variants into items, as values: what each root of the union-find
    records about its class, and the rule that keeps two classes apart. */
module Items {
  import opened Wrappers
  import opened Guards
  import opened DistinctLists
  import opened DisjointSets

  /** Lines with one comparison key and one IMPA code. The code itself is in State.impa, because
      the IMPA tier may clear it. */
  datatype Variant = Variant(
    key: string,
    feats: Features,
    quotes: set<string>,
    split: Option<int>,
    weight: nat,
    requests: seq<(Features, nat)>
  )

  /** `root` names each variant's class; the other tables are read at the root. */
  datatype State = State(
    impa: seq<Option<Code>>,
    root: seq<nat>,
    codes: seq<set<Code>>,
    members: seq<seq<nat>>,
    keys: seq<map<string, string>>,
    labels: seq<Option<int>>
  )

  ghost predicate Shaped(vs: seq<Variant>, s: State) {
    && |s.impa| == |s.root| == |s.codes| == |s.members| == |s.keys| == |s.labels| == |vs|
    && RootTable(s.root)
  }

  predicate Same(s: State, i: nat, j: nat)
    requires i < |s.root| && j < |s.root|
  {
    s.root[i] == s.root[j]
  }

  // What a root records

  ghost predicate In(s: State, m: nat, r: nat) {
    m < |s.root| && s.root[m] == r
  }

  ghost predicate HasCode(s: State, r: nat, c: Code) {
    exists m: nat {:trigger In(s, m, r)} :: In(s, m, r) && m < |s.impa| && s.impa[m] == Some(c)
  }

  ghost predicate HasQuote(vs: seq<Variant>, s: State, r: nat, q: string) {
    exists m: nat {:trigger In(s, m, r)} :: In(s, m, r) && m < |vs| && q in vs[m].quotes
  }

  ghost predicate HasLine(vs: seq<Variant>, s: State, r: nat, q: string, key: string) {
    exists m: nat {:trigger In(s, m, r)} :: In(s, m, r) && m < |vs| && q in vs[m].quotes && vs[m].key == key
  }

  ghost predicate HasLabel(vs: seq<Variant>, s: State, r: nat, split: Option<int>) {
    exists m: nat {:trigger In(s, m, r)} :: In(s, m, r) && m < |vs| && vs[m].split == split
  }

  /** The tables at root r describe exactly r's class: its members once each, at most one code
      and that one held by a member, every quotation with a key some member has under it. */
  ghost predicate Describes(vs: seq<Variant>, s: State, r: nat)
    requires Shaped(vs, s) && r < |vs|
  {
    && NoRepeats(s.members[r])
    && (forall m: nat :: m in s.members[r] <==> In(s, m, r))
    && (forall c :: c in s.codes[r] <==> HasCode(s, r, c))
    && (forall c, d :: c in s.codes[r] && d in s.codes[r] ==> c == d)
    && (forall q :: q in s.keys[r] <==> HasQuote(vs, s, r, q))
    && (forall q :: q in s.keys[r] ==> HasLine(vs, s, r, q, s.keys[r][q]))
    && HasLabel(vs, s, r, s.labels[r])
    && (s.labels[r].None? ==> forall m: nat :: In(s, m, r) ==> vs[m].split.None?)
  }

  ghost predicate Valid(vs: seq<Variant>, s: State) {
    && Shaped(vs, s)
    && forall r {:trigger Describes(vs, s, r)} :: 0 <= r < |vs| && s.root[r] == r ==> Describes(vs, s, r)
  }

  function Initial(vs: seq<Variant>, impa: seq<Option<Code>>): State
    requires |impa| == |vs|
  {
    State(
      impa,
      seq(|vs|, i => i),
      seq(|vs|, i requires 0 <= i < |vs| => if impa[i].Some? then {impa[i].value} else {}),
      seq(|vs|, i => [i]),
      seq(|vs|, i requires 0 <= i < |vs| => map q | q in vs[i].quotes :: vs[i].key),
      seq(|vs|, i requires 0 <= i < |vs| => vs[i].split)
    )
  }

  lemma InitialValid(vs: seq<Variant>, impa: seq<Option<Code>>)
    requires |impa| == |vs|
    ensures Valid(vs, Initial(vs, impa)) && Linked(vs, Initial(vs, impa))
  {
    var s := Initial(vs, impa);
    forall r | 0 <= r < |vs|
      ensures Describes(vs, s, r)
    {
      assert In(s, r, r);
      assert forall m: nat :: m in s.members[r] <==> m == r;
    }
  }

  // The rules between two classes

  predicate CodeConflict(s: State, i: nat, j: nat)
    requires i < |s.root| && j < |s.root| && s.root[i] < |s.codes| && s.root[j] < |s.codes|
  {
    var ci, cj := s.codes[s.root[i]], s.codes[s.root[j]];
    ci != {} && cj != {} && ci != cj
  }

  /** True when the classes hold different lines of one quotation. The smaller table is walked. */
  predicate KeysClash(ki: map<string, string>, kj: map<string, string>) {
    var (small, big) := if |kj| < |ki| then (kj, ki) else (ki, kj);
    exists q | q in small :: q in big && big[q] != small[q]
  }

  predicate SameQuotationLines(s: State, i: nat, j: nat)
    requires i < |s.root| && j < |s.root| && s.root[i] < |s.keys| && s.root[j] < |s.keys|
  {
    KeysClash(s.keys[s.root[i]], s.keys[s.root[j]])
  }

  /** The first guard between a and any member of bs, in their order. */
  function GuardAgainst(vs: seq<Variant>, a: nat, bs: seq<nat>): (g: Option<Guard>)
    requires a < |vs| && forall k :: 0 <= k < |bs| ==> bs[k] < |vs|
    ensures g.Some? <==> exists b: nat :: b in bs && BlockingGuard(vs[a].feats, vs[b].feats).Some?
  {
    if bs == [] then None
    else
      var g := BlockingGuard(vs[a].feats, vs[bs[0]].feats);
      if g.Some? then g else GuardAgainst(vs, a, bs[1..])
  }

  function GuardBetween(vs: seq<Variant>, ls: seq<nat>, bs: seq<nat>): (g: Option<Guard>)
    requires (forall k :: 0 <= k < |ls| ==> ls[k] < |vs|) && (forall k :: 0 <= k < |bs| ==> bs[k] < |vs|)
    ensures g.Some? <==> exists a: nat, b: nat :: a in ls && b in bs && BlockingGuard(vs[a].feats, vs[b].feats).Some?
  {
    if ls == [] then None
    else
      var g := GuardAgainst(vs, ls[0], bs);
      if g.Some? then g else GuardBetween(vs, ls[1..], bs)
  }

  ghost predicate Listable(vs: seq<Variant>, s: State, r: nat)
    requires Shaped(vs, s)
  {
    r < |vs| && forall k :: 0 <= k < |s.members[r]| ==> s.members[r][k] < |vs|
  }

  lemma RootListable(vs: seq<Variant>, s: State, i: nat)
    requires Valid(vs, s) && i < |vs|
    ensures s.root[i] < |vs| && s.root[s.root[i]] == s.root[i]
    ensures Describes(vs, s, s.root[i]) && Listable(vs, s, s.root[i])
  {
    assert RootAt(s.root, i);
    var r := s.root[i];
    assert Describes(vs, s, r);
    forall k | 0 <= k < |s.members[r]|
      ensures s.members[r][k] < |vs|
    {
      assert s.members[r][k] in s.members[r];
    }
  }

  /** The first rule that keeps i's item and j's item apart. */
  ghost function ItemGuard(vs: seq<Variant>, s: State, i: nat, j: nat): Option<Guard>
    requires Valid(vs, s) && i < |vs| && j < |vs|
  {
    RootListable(vs, s, i);
    RootListable(vs, s, j);
    var ri, rj := s.root[i], s.root[j];
    if CodeConflict(s, i, j) then Some(Impa)
    else if SameQuotationLines(s, i, j) then Some(SameQuotation)
    else if s.labels[ri] != s.labels[rj] then Some(OverrideSplit)
    else GuardBetween(vs, s.members[ri], s.members[rj])
  }

  // The same rule, pair by pair

  /** Two variants that may never share an item unless a person forces it: they hold two codes, or
      LinesBlocked. */
  ghost predicate PairBlocked(vs: seq<Variant>, impa: seq<Option<Code>>, a: nat, b: nat)
    requires a < |vs| == |impa| && b < |vs|
  {
    || (impa[a].Some? && impa[b].Some? && impa[a] != impa[b])
    || LinesBlocked(vs, a, b)
  }

  /** One quotation lists both under two keys, a person split them, or a guard tells their texts apart. */
  ghost predicate LinesBlocked(vs: seq<Variant>, a: nat, b: nat)
    requires a < |vs| && b < |vs|
  {
    || (vs[a].key != vs[b].key && exists q :: q in vs[a].quotes && q in vs[b].quotes)
    || vs[a].split != vs[b].split
    || BlockingGuard(vs[a].feats, vs[b].feats).Some?
  }

  lemma PairBlockedSymmetric(vs: seq<Variant>, impa: seq<Option<Code>>, a: nat, b: nat)
    requires a < |vs| == |impa| && b < |vs|
    ensures PairBlocked(vs, impa, a, b) == PairBlocked(vs, impa, b, a)
  {
    BlockingGuardSymmetric(vs[a].feats, vs[b].feats, None, None);
  }

  /** Complete linkage: no two members of one item block each other. */
  ghost predicate Linked(vs: seq<Variant>, s: State)
    requires Shaped(vs, s)
  {
    forall a: nat, b: nat {:trigger Same(s, a, b)} | a < |vs| && b < |vs| && Same(s, a, b) ::
      !PairBlocked(vs, s.impa, a, b)
  }

  /** Some member of i's item blocks some member of j's. */
  ghost predicate Separated(vs: seq<Variant>, s: State, i: nat, j: nat)
    requires Shaped(vs, s) && i < |vs| && j < |vs|
  {
    exists a: nat, b: nat {:trigger Same(s, a, i), Same(s, b, j)} ::
      a < |vs| && b < |vs| && Same(s, a, i) && Same(s, b, j) && PairBlocked(vs, s.impa, a, b)
  }

  /** The tables at two roots say no more and no less than the pairs behind them: the guard names
      a rule exactly when some pair of members is blocked. */
  lemma GuardIsCompleteLinkage(vs: seq<Variant>, s: State, i: nat, j: nat)
    requires Valid(vs, s) && Linked(vs, s) && i < |vs| && j < |vs|
    ensures ItemGuard(vs, s, i, j).Some? <==> Separated(vs, s, i, j)
  {
    assert RootAt(s.root, i) && RootAt(s.root, j);
    var ri, rj := s.root[i], s.root[j];
    assert Describes(vs, s, ri) && Describes(vs, s, rj);
    if Separated(vs, s, i, j) {
      var a: nat, b: nat :| a < |vs| && b < |vs| && Same(s, a, i) && Same(s, b, j) && PairBlocked(vs, s.impa, a, b);
      BlockedPairGuards(vs, s, i, j, a, b);
    }
    if ItemGuard(vs, s, i, j).Some? {
      GuardFindsPair(vs, s, i, j);
    }
  }

  lemma BlockedPairGuards(vs: seq<Variant>, s: State, i: nat, j: nat, a: nat, b: nat)
    requires Valid(vs, s) && Linked(vs, s) && i < |vs| && j < |vs| && a < |vs| && b < |vs|
    requires Same(s, a, i) && Same(s, b, j) && PairBlocked(vs, s.impa, a, b)
    ensures ItemGuard(vs, s, i, j).Some?
  {
    if s.impa[a].Some? && s.impa[b].Some? && s.impa[a] != s.impa[b] {
      CodeOfClass(vs, s, a);
      CodeOfClass(vs, s, b);
    } else if vs[a].split != vs[b].split {
      LabelOfClass(vs, s, a);
      LabelOfClass(vs, s, b);
    } else if vs[a].key != vs[b].key && exists q :: q in vs[a].quotes && q in vs[b].quotes {
      var q :| q in vs[a].quotes && q in vs[b].quotes;
      KeyOfClass(vs, s, a, q);
      KeyOfClass(vs, s, b, q);
    } else {
      MemberOfClass(vs, s, a);
      MemberOfClass(vs, s, b);
    }
  }

  lemma MemberOfClass(vs: seq<Variant>, s: State, a: nat)
    requires Valid(vs, s) && a < |vs|
    ensures s.root[a] < |vs| && a in s.members[s.root[a]]
  {
    RootListable(vs, s, a);
    assert In(s, a, s.root[a]);
  }

  lemma CodeOfClass(vs: seq<Variant>, s: State, a: nat)
    requires Valid(vs, s) && a < |vs| && s.impa[a].Some?
    ensures s.root[a] < |vs| && s.codes[s.root[a]] == {s.impa[a].value}
  {
    RootListable(vs, s, a);
    assert In(s, a, s.root[a]);
    assert HasCode(s, s.root[a], s.impa[a].value);
  }

  lemma LabelOfClass(vs: seq<Variant>, s: State, a: nat)
    requires Valid(vs, s) && Linked(vs, s) && a < |vs|
    ensures s.root[a] < |vs| && s.labels[s.root[a]] == vs[a].split
  {
    RootListable(vs, s, a);
    var r := s.root[a];
    var m: nat :| In(s, m, r) && m < |vs| && vs[m].split == s.labels[r];
    assert Same(s, m, a);
  }

  lemma KeyOfClass(vs: seq<Variant>, s: State, a: nat, q: string)
    requires Valid(vs, s) && Linked(vs, s) && a < |vs| && q in vs[a].quotes
    ensures s.root[a] < |vs| && q in s.keys[s.root[a]] && s.keys[s.root[a]][q] == vs[a].key
  {
    RootListable(vs, s, a);
    var r := s.root[a];
    assert In(s, a, r);
    assert HasQuote(vs, s, r, q);
    var m: nat :| In(s, m, r) && m < |vs| && q in vs[m].quotes && vs[m].key == s.keys[r][q];
    assert Same(s, m, a);
  }

  lemma GuardFindsPair(vs: seq<Variant>, s: State, i: nat, j: nat)
    requires Valid(vs, s) && Linked(vs, s) && i < |vs| && j < |vs|
    requires ItemGuard(vs, s, i, j).Some?
    ensures Separated(vs, s, i, j)
  {
    RootListable(vs, s, i);
    RootListable(vs, s, j);
    var a: nat, b: nat;
    if CodeConflict(s, i, j) {
      a, b := CodesBlock(vs, s, i, j);
    } else if SameQuotationLines(s, i, j) {
      a, b := QuotationBlocks(vs, s, i, j);
    } else if s.labels[s.root[i]] != s.labels[s.root[j]] {
      a, b := i, j;
      LabelOfClass(vs, s, i);
      LabelOfClass(vs, s, j);
    } else {
      a, b := TextsBlock(vs, s, i, j);
    }
    assert Same(s, a, i) && Same(s, b, j) && PairBlocked(vs, s.impa, a, b);
  }

  lemma CodesBlock(vs: seq<Variant>, s: State, i: nat, j: nat) returns (a: nat, b: nat)
    requires Valid(vs, s) && i < |vs| && j < |vs| && s.root[i] < |vs| && s.root[j] < |vs| && CodeConflict(s, i, j)
    ensures a < |vs| && b < |vs| && Same(s, a, i) && Same(s, b, j) && PairBlocked(vs, s.impa, a, b)
  {
    RootListable(vs, s, i);
    RootListable(vs, s, j);
    var c, d := CodesDiffer(s, s.root[i], s.root[j]);
    a := CodeHolder(vs, s, s.root[i], c);
    b := CodeHolder(vs, s, s.root[j], d);
  }

  lemma QuotationBlocks(vs: seq<Variant>, s: State, i: nat, j: nat) returns (a: nat, b: nat)
    requires Valid(vs, s) && i < |vs| && j < |vs| && s.root[i] < |vs| && s.root[j] < |vs| && SameQuotationLines(s, i, j)
    ensures a < |vs| && b < |vs| && Same(s, a, i) && Same(s, b, j) && PairBlocked(vs, s.impa, a, b)
  {
    RootListable(vs, s, i);
    RootListable(vs, s, j);
    var ri, rj := s.root[i], s.root[j];
    var q :| q in s.keys[ri] && q in s.keys[rj] && s.keys[ri][q] != s.keys[rj][q];
    a := LineHolder(vs, s, ri, q);
    b := LineHolder(vs, s, rj, q);
  }

  lemma TextsBlock(vs: seq<Variant>, s: State, i: nat, j: nat) returns (a: nat, b: nat)
    requires Valid(vs, s) && i < |vs| && j < |vs| && Listable(vs, s, s.root[i]) && Listable(vs, s, s.root[j])
    requires GuardBetween(vs, s.members[s.root[i]], s.members[s.root[j]]).Some?
    ensures a < |vs| && b < |vs| && Same(s, a, i) && Same(s, b, j) && PairBlocked(vs, s.impa, a, b)
  {
    RootListable(vs, s, i);
    RootListable(vs, s, j);
    var ri, rj := s.root[i], s.root[j];
    a, b :| a in s.members[ri] && b in s.members[rj] && BlockingGuard(vs[a].feats, vs[b].feats).Some?;
    assert In(s, a, ri) && In(s, b, rj);
  }

  lemma CodesDiffer(s: State, ri: nat, rj: nat) returns (c: Code, d: Code)
    requires ri < |s.codes| && rj < |s.codes|
    requires s.codes[ri] != {} && s.codes[rj] != {} && s.codes[ri] != s.codes[rj]
    requires forall c, d :: c in s.codes[ri] && d in s.codes[ri] ==> c == d
    requires forall c, d :: c in s.codes[rj] && d in s.codes[rj] ==> c == d
    ensures c in s.codes[ri] && d in s.codes[rj] && c != d
  {
    c :| c in s.codes[ri];
    d :| d in s.codes[rj];
    assert s.codes[ri] == {c} && s.codes[rj] == {d};
  }

  lemma CodeHolder(vs: seq<Variant>, s: State, r: nat, c: Code) returns (m: nat)
    requires Shaped(vs, s) && r < |vs| && Describes(vs, s, r) && c in s.codes[r]
    ensures m < |vs| && s.root[m] == r && s.impa[m] == Some(c)
  {
    assert HasCode(s, r, c);
    m :| In(s, m, r) && m < |s.impa| && s.impa[m] == Some(c);
  }

  lemma LineHolder(vs: seq<Variant>, s: State, r: nat, q: string) returns (m: nat)
    requires Shaped(vs, s) && r < |vs| && Describes(vs, s, r) && q in s.keys[r]
    ensures m < |vs| && s.root[m] == r && q in vs[m].quotes && vs[m].key == s.keys[r][q]
  {
    assert HasLine(vs, s, r, q, s.keys[r][q]);
    m :| In(s, m, r) && m < |vs| && q in vs[m].quotes && vs[m].key == s.keys[r][q];
  }

  lemma SeparatedSymmetric(vs: seq<Variant>, s: State, i: nat, j: nat)
    requires Shaped(vs, s) && i < |vs| && j < |vs| && Separated(vs, s, i, j)
    ensures Separated(vs, s, j, i)
  {
    var a: nat, b: nat :| a < |vs| && b < |vs| && Same(s, a, i) && Same(s, b, j) && PairBlocked(vs, s.impa, a, b);
    PairBlockedSymmetric(vs, s.impa, a, b);
    assert Same(s, b, j) && Same(s, a, i);
  }

  // Unions

  /** What union leaves behind once it decides to join root rj to root ri. */
  ghost function Joined(s: State, ri: nat, rj: nat): State
    requires ri < |s.codes| == |s.members| == |s.keys| == |s.labels| && rj < |s.codes|
  {
    s.(root := Merged(s.root, ri, rj),
       codes := s.codes[ri := s.codes[ri] + s.codes[rj]],
       members := s.members[ri := s.members[ri] + s.members[rj]],
       keys := s.keys[ri := s.keys[ri] + s.keys[rj]],
       labels := if s.labels[ri].None? then s.labels[ri := s.labels[rj]] else s.labels)
  }

  /** When union joins i's item and j's. */
  ghost predicate Joinable(vs: seq<Variant>, s: State, i: nat, j: nat, force: bool)
    requires Valid(vs, s) && i < |vs| && j < |vs|
  {
    RootListable(vs, s, i);
    RootListable(vs, s, j);
    s.root[i] != s.root[j] && !CodeConflict(s, i, j) && (force || ItemGuard(vs, s, i, j).None?)
  }

  /** The rules read two items at their roots. */
  lemma RulesAtRoots(vs: seq<Variant>, s: State, i: nat, j: nat)
    requires Valid(vs, s) && i < |vs| && j < |vs|
    ensures s.root[i] < |vs| && s.root[j] < |vs| && s.root[s.root[i]] == s.root[i] && s.root[s.root[j]] == s.root[j]
    ensures CodeConflict(s, s.root[i], s.root[j]) == CodeConflict(s, i, j)
    ensures ItemGuard(vs, s, s.root[i], s.root[j]) == ItemGuard(vs, s, i, j)
  {
    RootListable(vs, s, i);
    RootListable(vs, s, j);
  }

  ghost function AfterUnion(vs: seq<Variant>, s: State, i: nat, j: nat, force: bool): (t: State)
    requires Valid(vs, s) && i < |vs| && j < |vs|
    ensures Valid(vs, t)
  {
    RootListable(vs, s, i);
    RootListable(vs, s, j);
    if Joinable(vs, s, i, j, force) then
      JoinedValid(vs, s, s.root[i], s.root[j]);
      Joined(s, s.root[i], s.root[j])
    else s
  }

  /** Classes only grow, and no code changes. */
  ghost predicate Coarser(s: State, t: State) {
    && |s.root| == |t.root|
    && s.impa == t.impa
    && forall i: nat, j: nat {:trigger Same(s, i, j)} {:trigger Same(t, i, j)} | i < |s.root| && j < |s.root| &&
      Same(s, i, j) :: Same(t, i, j)
  }

  /** A guard that names a rule between two items goes on naming one, whatever is joined to
      either of them later. */
  lemma SeparationPersists(vs: seq<Variant>, s: State, t: State, i: nat, j: nat)
    requires Shaped(vs, s) && Shaped(vs, t) && Coarser(s, t) && i < |vs| && j < |vs|
    requires Separated(vs, s, i, j)
    ensures Separated(vs, t, i, j)
  {
    var a: nat, b: nat :| a < |vs| && b < |vs| && Same(s, a, i) && Same(s, b, j) && PairBlocked(vs, s.impa, a, b);
    assert Same(t, a, i) && Same(t, b, j);
  }

  lemma JoinedShape(vs: seq<Variant>, s: State, ri: nat, rj: nat)
    requires Shaped(vs, s) && ri < |vs| && rj < |vs| && s.root[ri] == ri && s.root[rj] == rj && ri != rj
    ensures Shaped(vs, Joined(s, ri, rj)) && Coarser(s, Joined(s, ri, rj))
  {
    MergedRoots(s.root, ri, rj);
  }

  lemma JoinedValid(vs: seq<Variant>, s: State, ri: nat, rj: nat)
    requires Valid(vs, s) && ri < |vs| && rj < |vs| && s.root[ri] == ri && s.root[rj] == rj && ri != rj
    requires !CodeConflict(s, ri, rj)
    ensures Valid(vs, Joined(s, ri, rj))
  {
    JoinedShape(vs, s, ri, rj);
    var t := Joined(s, ri, rj);
    forall r | 0 <= r < |vs| && t.root[r] == r
      ensures Describes(vs, t, r)
    {
      assert Describes(vs, s, r);
      if r == ri {
        JoinedDescribes(vs, s, ri, rj);
      } else {
        UntouchedDescribes(vs, s, ri, rj, r);
      }
    }
  }

  lemma UntouchedDescribes(vs: seq<Variant>, s: State, ri: nat, rj: nat, r: nat)
    requires Shaped(vs, s) && ri < |vs| && rj < |vs| && Shaped(vs, Joined(s, ri, rj))
    requires r < |vs| && r != ri && r != rj && Describes(vs, s, r)
    ensures Describes(vs, Joined(s, ri, rj), r)
  {
    var t := Joined(s, ri, rj);
    assert forall m: nat {:trigger In(s, m, r)} {:trigger In(t, m, r)} :: In(s, m, r) <==> In(t, m, r);
    forall c
      ensures HasCode(s, r, c) <==> HasCode(t, r, c)
    {
    }
    forall q
      ensures HasQuote(vs, s, r, q) <==> HasQuote(vs, t, r, q)
    {
    }
  }

  lemma JoinedDescribes(vs: seq<Variant>, s: State, ri: nat, rj: nat)
    requires Shaped(vs, s) && ri < |vs| && rj < |vs| && Shaped(vs, Joined(s, ri, rj))
    requires s.root[ri] == ri && s.root[rj] == rj && ri != rj && !CodeConflict(s, ri, rj)
    requires Describes(vs, s, ri) && Describes(vs, s, rj)
    ensures Describes(vs, Joined(s, ri, rj), ri)
  {
    var t := Joined(s, ri, rj);
    assert forall m: nat {:trigger In(t, m, ri)} {:trigger In(s, m, ri)} {:trigger In(s, m, rj)} ::
      In(t, m, ri) <==> In(s, m, ri) || In(s, m, rj);
    assert NoRepeats(t.members[ri]) by {
      assert forall m: nat :: m in s.members[ri] ==> In(s, m, ri) && m !in s.members[rj];
      NoRepeatsAppend(s.members[ri], s.members[rj]);
    }
    forall c
      ensures HasCode(t, ri, c) <==> HasCode(s, ri, c) || HasCode(s, rj, c)
    {
    }
    forall q
      ensures HasQuote(vs, t, ri, q) <==> HasQuote(vs, s, ri, q) || HasQuote(vs, s, rj, q)
    {
    }
    forall q | q in t.keys[ri]
      ensures HasLine(vs, t, ri, q, t.keys[ri][q])
    {
      var r := if q in s.keys[rj] then rj else ri;
      assert HasLine(vs, s, r, q, s.keys[r][q]);
    }
    var r := if s.labels[ri].None? then rj else ri;
    assert HasLabel(vs, s, r, s.labels[r]);
  }

  /** Joining two items no rule separates keeps every pair inside an item unblocked. */
  lemma JoinedLinked(vs: seq<Variant>, s: State, ri: nat, rj: nat)
    requires Shaped(vs, s) && Linked(vs, s)
    requires ri < |vs| && rj < |vs| && s.root[ri] == ri && s.root[rj] == rj && ri != rj
    requires !Separated(vs, s, ri, rj)
    ensures Shaped(vs, Joined(s, ri, rj)) && Linked(vs, Joined(s, ri, rj))
  {
    JoinedShape(vs, s, ri, rj);
    var t := Joined(s, ri, rj);
    forall a: nat, b: nat | a < |vs| && b < |vs| && Same(t, a, b)
      ensures !PairBlocked(vs, t.impa, a, b)
    {
      PairBlockedSymmetric(vs, s.impa, a, b);
      if Same(s, a, b) {
      } else if Same(s, a, ri) {
        assert Same(s, b, rj);
      } else {
        assert Same(s, a, rj) && Same(s, b, ri);
      }
    }
  }
}

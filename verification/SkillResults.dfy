/**
 What a load of skill packs binds and publishes, in terms of packs, catalog and stored material
 rather than of the loader's own tests (tools/load_first_party_skill_packs.py).
 */
module SkillResults {
  import opened Common
  import opened SkillPacks

  /** The head of the key is the pack as it is bound: content, owner, agents and profiles. */
  predicate Shows(l: Lineage, p: Prepared) {
    && l.head.At? && l.head.version in l.rows
    && var row := l.rows[l.head.version];
       && row.digest.key == p.pack.family + "." + p.pack.name
       && row.digest.version == l.head.version && row.digest.supersedes == row.supersedes
       && row.digest.owner == p.pack.owner && row.digest.content == p.pack.content
       && row.digest.agents == p.agents && row.digest.profiles == p.profiles
  }

  predicate Buildable(p: Prepared) {
    && p.pack.wellFormed && p.pack.frontmatterName == p.pack.name && Distinct(p.agents) && Distinct(p.profiles)
  }

  lemma HeadIsShown(l: Lineage, p: Prepared)
    ensures HeadIs(l, p) <==> Shows(l, p) && Buildable(p)
  {
  }

  lemma {:induction false} StaleExactly(store: Store, prepared: seq<Prepared>, k: nat)
    requires k < |prepared| && DistinctKeys(prepared)
    ensures KeyOf(prepared[k].pack) in StaleKeys(store, prepared) <==> !Converged(store, prepared[k])
    decreases |prepared|
  {
    hide Converged, KeyOf;
    var n := |prepared| - 1;
    assert prepared == prepared[..n] + [prepared[n]];
    if k < n {
      StaleExactly(store, prepared[..n], k);
    } else {
      NextKeyIsNew(prepared, n);
      StaleAreKeys(store, prepared[..n], KeyOf(prepared[n].pack));
    }
  }

  /** A load publishes exactly the packs that the head of their key does not show, be it that their
      content, owner, agents or profiles differ or that there is no head; behind it every head
      shows its pack. */
  ghost predicate PublishesChanged(before: Store, after: Store, prepared: seq<Prepared>, published: seq<Revision>) {
    forall k :: 0 <= k < |prepared| ==>
      var key := prepared[k].pack.family + "." + prepared[k].pack.name;
      && Shows(LineageOf(after, key), prepared[k])
      && (!Shows(LineageOf(before, key), prepared[k]) <==> exists j :: 0 <= j < |published| && published[j].key == key)
  }

  lemma DeliveredPublishes(before: Store, after: Store, prepared: seq<Prepared>, published: seq<Revision>)
    requires Publishable(prepared) && Delivered(before, after, prepared, published)
    ensures PublishesChanged(before, after, prepared, published)
  {
    hide Shows, HeadIs, Extended, ElseUnchanged;
    forall k | 0 <= k < |prepared|
      ensures Shows(LineageOf(after, KeyOf(prepared[k].pack)), prepared[k])
      ensures (exists j :: 0 <= j < |published| && published[j].key == KeyOf(prepared[k].pack))
              <==> !Shows(LineageOf(before, KeyOf(prepared[k].pack)), prepared[k])
    {
      HeadIsShown(LineageOf(after, KeyOf(prepared[k].pack)), prepared[k]);
      HeadIsShown(LineageOf(before, KeyOf(prepared[k].pack)), prepared[k]);
      StaleExactly(before, prepared, k);
      KeyAmong(published, KeyOf(prepared[k].pack));
      assert Converged(after, prepared[k]);
    }
  }

  lemma KeyAmong(published: seq<Revision>, key: string)
    ensures key in Keys(published) <==> exists j :: 0 <= j < |published| && published[j].key == key
  {
    assert forall j :: 0 <= j < |published| ==> Keys(published)[j] == published[j].key;
  }

  predicate IsOf(r: Revision, p: Prepared) {
    && r.key == p.pack.family + "." + p.pack.name && r.owner == p.pack.owner && r.content == p.pack.content
    && r.agents == p.agents && r.profiles == p.profiles
  }

  /** Every published revision is a bound pack, under its key. */
  lemma PublishedIsPack(before: Store, after: Store, prepared: seq<Prepared>, published: seq<Revision>, j: nat)
    requires Delivered(before, after, prepared, published) && j < |published|
    ensures exists k :: 0 <= k < |prepared| && IsOf(published[j], prepared[k])
  {
    hide ElseUnchanged, Accepts, HeadIs, IsMaximum;
    var r := published[j];
    assert Keys(published)[j] == r.key;
    assert HasKey(prepared, r.key);
    var k :| 0 <= k < |prepared| && KeyOf(prepared[k].pack) == r.key;
    assert Converged(after, prepared[k]);
    HeadIsShown(LineageOf(after, r.key), prepared[k]);
    AdvancedHead(LineageOf(before, r.key), LineageOf(after, r.key), r);
    assert IsOf(r, prepared[k]);
  }

  lemma AdvancedHead(before: Lineage, after: Lineage, r: Revision)
    requires Advances(before, after, r)
    ensures after.head == At(r.version) && r.version in after.rows && after.rows[r.version].digest == r
  {
    hide Accepts, IsMaximum;
    ClearedKeepsRows(before);
  }

  /** Which agents a pack is for. */
  predicate Serves(agent: string, pack: Pack) {
    || (agent == "workspace-agent"
        && (pack.family == "reporting" || (pack.family == "reliability" && pack.name == "code-repair")))
    || (agent == "evidence-agent"
        && (pack.family == "payments" || pack.family == "platform"
            || (pack.family == "reliability" && pack.name != "code-repair")))
    || (agent == "infrastructure-agent" && pack.family == "platform")
  }

  lemma DeclaredServe(pack: Pack)
    ensures DeclaredAgents(pack).Some? <==> exists a :: Serves(a, pack)
    ensures DeclaredAgents(pack).Some? ==>
      && Distinct(DeclaredAgents(pack).value) && forall a :: a in DeclaredAgents(pack).value <==> Serves(a, pack)
  {
    assert Serves("workspace-agent", pack) || Serves("evidence-agent", pack) || DeclaredAgents(pack).None?;
  }

  /** A profile that a registered agent of the pack has, for code repair its one profile. */
  predicate Lends(catalog: Catalog, pack: Pack, profile: string) {
    && (exists a :: a in catalog.agents && Serves(a, pack) && a in catalog.profiles && profile in catalog.profiles[a])
    && (pack.family == "reliability" && pack.name == "code-repair" ==> profile == "workspace.code-repair.v1@1")
  }

  /** What a bound pack is published under: its registered agents, and all the profiles they lend. */
  lemma BoundInFull(pack: Pack, catalog: Catalog)
    requires Prepare(pack, catalog).Some?
    ensures var p := Prepare(pack, catalog).value;
      && p.pack == pack && p.agents != [] && p.profiles != [] && Buildable(p)
      && (forall a :: a in p.agents <==> Serves(a, pack) && a in catalog.agents)
      && (forall r :: r in p.profiles <==> Lends(catalog, pack, r))
  {
    hide DeclaredAgents, Filter, ProfilesOf;
    var p := Prepare(pack, catalog).value;
    PreparedIsBound(pack, catalog);
    DeclaredServe(pack);
    forall r ensures Offers(catalog, p.agents, r) <==>
      exists a :: a in catalog.agents && Serves(a, pack) && a in catalog.profiles && r in catalog.profiles[a]
    {
      OfferedByServing(pack, catalog, p.agents, r);
    }
  }

  lemma OfferedByServing(pack: Pack, catalog: Catalog, agents: seq<string>, r: string)
    requires forall a :: a in agents <==> Serves(a, pack) && a in catalog.agents
    ensures Offers(catalog, agents, r) <==>
      exists a :: a in catalog.agents && Serves(a, pack) && a in catalog.profiles && r in catalog.profiles[a]
  {
    hide Serves;
    if Offers(catalog, agents, r) {
      var a :| a in agents && a in catalog.profiles && r in catalog.profiles[a];
      assert a in catalog.agents && Serves(a, pack);
    }
    if a :| a in catalog.agents && Serves(a, pack) && a in catalog.profiles && r in catalog.profiles[a] {
      assert a in agents;
    }
  }

  /** No profile is listed twice, under one agent or two: the key of the catalog's table. */
  predicate ProfilesOnce(catalog: Catalog) {
    && (forall a :: a in catalog.profiles ==> Distinct(catalog.profiles[a]))
    && forall a, b, r ::
         a in catalog.profiles && b in catalog.profiles && a != b && r in catalog.profiles[a]
         ==> r !in catalog.profiles[b]
  }

  lemma {:induction false} FilterDistinct(s: seq<string>, keep: string -> bool)
    requires Distinct(s)
    ensures Distinct(Filter(s, keep))
  {
    if s != [] {
      FilterKeeps(s[1..], keep);
      FilterDistinct(s[1..], keep);
      assert s[0] !in s[1..];
    }
  }

  lemma {:induction false} ProfilesDistinct(agents: seq<string>, catalog: Catalog)
    requires Distinct(agents) && ProfilesOnce(catalog)
    ensures Distinct(ProfilesOf(agents, catalog))
  {
    if agents != [] {
      var own, rest := if agents[0] in catalog.profiles then catalog.profiles[agents[0]] else [],
        ProfilesOf(agents[1..], catalog);
      ProfilesDistinct(agents[1..], catalog);
      forall r | r in own ensures r !in rest {
        ProfilesAreOffered(agents[1..], catalog, r);
        assert agents[0] !in agents[1..];
      }
      DistinctConcat(own, rest);
    }
  }

  lemma DistinctConcat(a: seq<string>, b: seq<string>)
    requires Distinct(a) && Distinct(b) && forall x :: x in a ==> x !in b
    ensures Distinct(a + b)
  {
    var s := a + b;
    forall i, j | 0 <= i < j < |s| ensures s[i] != s[j] {
      if i < |a| <= j {
        assert s[i] == a[i] && s[j] == b[j - |a|];
        assert a[i] in a;
      }
    }
  }

  /** A pack can be bound exactly when it is well formed under its directory's name, its family has
      a registered agent, and those lend some profile. */
  lemma BindsExactly(pack: Pack, catalog: Catalog)
    requires ProfilesOnce(catalog)
    ensures Prepare(pack, catalog).Some? <==>
      && pack.wellFormed && pack.frontmatterName == pack.name
      && (exists a :: a in catalog.agents && Serves(a, pack)) && exists r :: Lends(catalog, pack, r)
  {
    DeclaredServe(pack);
    hide DeclaredAgents, Filter, ProfilesOf, Serves;
    if Prepare(pack, catalog).Some? {
      BoundInFull(pack, catalog);
      var p := Prepare(pack, catalog).value;
      assert p.agents[0] in p.agents && p.profiles[0] in p.profiles;
    } else if DeclaredAgents(pack).Some? {
      NotBound(pack, catalog);
    }
  }

  lemma NotBound(pack: Pack, catalog: Catalog)
    requires ProfilesOnce(catalog) && DeclaredAgents(pack).Some? && Prepare(pack, catalog).None?
    requires Distinct(DeclaredAgents(pack).value)
    requires forall a :: a in DeclaredAgents(pack).value <==> Serves(a, pack)
    ensures !pack.wellFormed || pack.frontmatterName != pack.name
      || !(exists a :: a in catalog.agents && Serves(a, pack)) || !(exists r :: Lends(catalog, pack, r))
  {
    hide DeclaredAgents, Filter, ProfilesOf, Serves;
    var declared := DeclaredAgents(pack).value;
    var agents := Filter(declared, a => a in catalog.agents);
    FilterKeeps(declared, a => a in catalog.agents);
    FilterDistinct(declared, a => a in catalog.agents);
    var offered := ProfilesOf(agents, catalog);
    ProfilesDistinct(agents, catalog);
    FilterKeeps(offered, r => r == CODE_REPAIR_PROFILE);
    FilterDistinct(offered, r => r == CODE_REPAIR_PROFILE);
    var profiles := if CodeRepair(pack) then Filter(offered, r => r == CODE_REPAIR_PROFILE) else offered;
    forall r ensures r in profiles <==> Lends(catalog, pack, r) {
      ProfilesAreOffered(agents, catalog, r);
      OfferedByServing(pack, catalog, agents, r);
    }
    if a :| a in catalog.agents && Serves(a, pack) {
      assert a in agents;
    }
    if r :| Lends(catalog, pack, r) {
      assert r in profiles;
    }
  }

  /** Filtering goes element by element, and so does the collection of profiles. */
  lemma {:induction false} FilterConcat(a: seq<string>, b: seq<string>, keep: string -> bool)
    ensures Filter(a + b, keep) == Filter(a, keep) + Filter(b, keep)
  {
    if a == [] {
      assert a + b == b;
    } else {
      assert (a + b)[1..] == a[1..] + b;
      FilterConcat(a[1..], b, keep);
    }
  }

  /** How many of the first k packs are not the excluded one. */
  function CountBound(packs: seq<Pack>, k: nat): nat
    requires k <= |packs|
  {
    if k == 0 then 0 else CountBound(packs, k - 1) + if packs[k - 1].name == "ci-failure-triage" then 0 else 1
  }

  lemma {:induction false} CountOfFront(packs: seq<Pack>, n: nat, k: nat)
    requires k <= n <= |packs|
    ensures CountBound(packs[..n], k) == CountBound(packs, k)
  {
    if k > 0 {
      CountOfFront(packs, n, k - 1);
    }
  }

  predicate Shipped(packs: seq<Pack>, k: nat)
    requires k < |packs|
  {
    packs[k].name != "ci-failure-triage"
  }

  /** One more pack. */
  lemma PrepareStep(packs: seq<Pack>, catalog: Catalog)
    requires packs != [] && PrepareAll(packs, catalog).Some?
    ensures var n := |packs| - 1;
      && PrepareAll(packs[..n], catalog).Some?
      && var before, after := PrepareAll(packs[..n], catalog).value, PrepareAll(packs, catalog).value;
         if Shipped(packs, n)
         then Prepare(packs[n], catalog).Some? && after == before + [Prepare(packs[n], catalog).value]
         else after == before
  {
    hide Prepare, HasKey;
  }

  /** What preparation lets through is every shipped pack, bound, in order, and nothing else. */
  lemma {:induction false} PreparesAll(packs: seq<Pack>, catalog: Catalog)
    requires PrepareAll(packs, catalog).Some?
    ensures var prepared := PrepareAll(packs, catalog).value;
      && |prepared| == CountBound(packs, |packs|)
      && forall k :: 0 <= k < |packs| && Shipped(packs, k) ==>
           CountBound(packs, k) < |prepared| && Prepare(packs[k], catalog) == Some(prepared[CountBound(packs, k)])
    decreases |packs|
  {
    hide Prepare, PrepareAll, CountBound, Shipped;
    CountStep(packs);
    if packs == [] {
      NonePrepared(catalog);
    } else {
      var n := |packs| - 1;
      PrepareStep(packs, catalog);
      PreparesAll(packs[..n], catalog);
      CountOfFront(packs, n, n);
      forall k | 0 <= k < n
        ensures CountBound(packs[..n], k) == CountBound(packs, k)
        ensures Shipped(packs[..n], k) == Shipped(packs, k) && packs[..n][k] == packs[k]
      {
        CountOfFront(packs, n, k);
        ShippedInFront(packs, n, k);
      }
    }
  }

  lemma CountStep(packs: seq<Pack>)
    ensures if packs == [] then CountBound(packs, 0) == 0
            else var n := |packs| - 1;
              CountBound(packs, |packs|) == CountBound(packs, n) + if Shipped(packs, n) then 1 else 0
  {
  }

  lemma ShippedInFront(packs: seq<Pack>, n: nat, k: nat)
    requires k < n <= |packs|
    ensures Shipped(packs[..n], k) == Shipped(packs, k)
  {
  }

  lemma NonePrepared(catalog: Catalog)
    ensures PrepareAll([], catalog) == Some([])
  {
  }

  /** Preparation is refused exactly for a shipped pack that cannot be bound, or two of one key. */
  lemma {:induction false} RefusesExactly(packs: seq<Pack>, catalog: Catalog)
    ensures PrepareAll(packs, catalog).None? <==>
      || (exists k :: 0 <= k < |packs| && Shipped(packs, k) && Prepare(packs[k], catalog).None?)
      || (exists i, j :: 0 <= i < j < |packs| && Shipped(packs, i) && Shipped(packs, j) && SameKey(packs[i], packs[j]))
    decreases |packs|
  {
    hide Prepare, SameKey;
    if packs != [] {
      var n := |packs| - 1;
      var front := packs[..n];
      assert forall k :: 0 <= k < n ==> front[k] == packs[k];
      RefusesExactly(front, catalog);
      if PrepareAll(front, catalog).Some? && Shipped(packs, n) && Prepare(packs[n], catalog).Some? {
        KeyIsEarlier(packs, catalog);
      }
    }
  }

  predicate SameKey(a: Pack, b: Pack) { a.family + "." + a.name == b.family + "." + b.name }

  lemma KeyIsEarlier(packs: seq<Pack>, catalog: Catalog)
    requires packs != [] && PrepareAll(packs[..|packs| - 1], catalog).Some?
    ensures var n := |packs| - 1;
      HasKey(PrepareAll(packs[..n], catalog).value, KeyOf(packs[n]))
      <==> exists i :: 0 <= i < n && Shipped(packs, i) && SameKey(packs[i], packs[n])
  {
    hide Prepare;
    var n := |packs| - 1;
    var front, key := packs[..n], KeyOf(packs[n]);
    var prepared := PrepareAll(front, catalog).value;
    PreparesAll(front, catalog);
    if HasKey(prepared, key) {
      var m :| 0 <= m < |prepared| && KeyOf(prepared[m].pack) == key;
      var i := PackAt(front, catalog, m);
      assert front[i] == packs[i] && SameKey(packs[i], packs[n]);
    }
    if i :| 0 <= i < n && Shipped(packs, i) && SameKey(packs[i], packs[n]) {
      assert front[i] == packs[i];
      PreparedPack(packs[i], catalog);
      assert KeyOf(prepared[CountBound(front, i)].pack) == key;
    }
  }

  lemma PreparedPack(pack: Pack, catalog: Catalog)
    ensures Prepare(pack, catalog).Some? ==> Prepare(pack, catalog).value.pack == pack
  {
  }

  /** The pack that a prepared one comes from. */
  lemma {:induction false} PackAt(packs: seq<Pack>, catalog: Catalog, m: nat) returns (i: nat)
    requires PrepareAll(packs, catalog).Some? && m < |PrepareAll(packs, catalog).value|
    ensures i < |packs| && Shipped(packs, i) && PrepareAll(packs, catalog).value[m].pack == packs[i]
    decreases |packs|
  {
    hide Prepare, HasKey;
    var n := |packs| - 1;
    if PrepareAll(packs, catalog) == PrepareAll(packs[..n], catalog) || m < |PrepareAll(packs[..n], catalog).value| {
      i := PackAt(packs[..n], catalog, m);
    } else {
      PreparedPack(packs[n], catalog);
      i := n;
    }
  }
}

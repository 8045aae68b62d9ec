/**
 The first-party skill-pack loader of tools/load_first_party_skill_packs.py: revisions built
 from packs, the guidance store it drives, and the load that converges one to the other.

 Of the store (src/solvan/persistence/operational_guidance_authoring.py and
 operational_guidance_lifecycle.py) the model holds what decides a lineage: definition,
 revisions, predecessor links, lifecycles and head. The stored hash is the digest of the
 revision; the digest is injective and is represented by the revision.
 */
module SkillPacks {
  import opened Common
  import Decimal

  /** A pack directory `guidance/<family>/<name>`; `content` stands for its digested material. */
  datatype Pack = Pack(
    family: string, name: string, frontmatterName: string, wellFormed: bool, owner: string, content: string)

  datatype Revision = Revision(
    key: string, version: string, supersedes: Option<string>,
    owner: string, content: string, agents: seq<string>, profiles: seq<string>)

  const EXCLUDED_NAME := "ci-failure-triage"
  const EXCLUDED_KEY := "reliability" + "." + EXCLUDED_NAME
  const CODE_REPAIR_PROFILE := "workspace.code-repair.v1@1"

  function KeyOf(pack: Pack): string { pack.family + "." + pack.name }

  /** `revision_for`, which refuses repeated agents and profiles: the commit of the release takes
      no part in the revision. */
  function RevisionFor(
    pack: Pack, commit: string, agents: seq<string>, profiles: seq<string>,
    version: string, supersedes: Option<string>): Option<Revision>
  {
    if !pack.wellFormed || pack.frontmatterName != pack.name || !Distinct(agents) || !Distinct(profiles) then None
    else Some(Revision(KeyOf(pack), version, supersedes, pack.owner, pack.content, agents, profiles))
  }

  datatype Lifecycle = Draft | InReview | Approved | Deprecated | Retired

  /** `supersedes` is the version a revision supersedes, under the same key. */
  datatype Row = Row(digest: Revision, supersedes: Option<string>, lifecycle: Lifecycle)

  /** The row of a key in the table of heads: absent, without a version, or with one. */
  datatype Head = NoHead | Vacant | At(version: string)

  /** All there is of a key; `owner` is that of its definition, once there is one. */
  datatype Lineage = Lineage(owner: Option<string>, rows: map<string, Row>, head: Head)

  const NO_LINEAGE := Lineage(None, map[], NoHead)

  type Store = map<string, Lineage>

  function LineageOf(store: Store, key: string): Lineage {
    if key in store then store[key] else NO_LINEAGE
  }

  /** Registered agents, and the approved profile revisions of each. */
  datatype Catalog = Catalog(agents: set<string>, profiles: map<string, seq<string>>)

  function FamilyAgents(family: string): Option<seq<string>> {
    if family == "reliability" || family == "payments" then Some(["evidence-agent"])
    else if family == "platform" then Some(["infrastructure-agent", "evidence-agent"])
    else if family == "reporting" then Some(["workspace-agent"])
    else None
  }

  predicate CodeRepair(pack: Pack) { pack.family == "reliability" && pack.name == "code-repair" }

  function Filter(s: seq<string>, keep: string -> bool): seq<string> {
    if s == [] then [] else (if keep(s[0]) then [s[0]] else []) + Filter(s[1..], keep)
  }

  function ProfilesOf(agents: seq<string>, catalog: Catalog): seq<string> {
    if agents == [] then []
    else (if agents[0] in catalog.profiles then catalog.profiles[agents[0]] else []) + ProfilesOf(agents[1..], catalog)
  }

  /** A pack with what it is published under. */
  datatype Prepared = Prepared(pack: Pack, agents: seq<string>, profiles: seq<string>)

  /** The binding of one pack to registered agents and approved profiles, or a refusal. */
  function Prepare(pack: Pack, catalog: Catalog): Option<Prepared> {
    var declared := DeclaredAgents(pack);
    if declared.None? then None
    else
      var agents := Filter(declared.value, a => a in catalog.agents);
      var offered := ProfilesOf(agents, catalog);
      var profiles := if CodeRepair(pack) then Filter(offered, p => p == CODE_REPAIR_PROFILE) else offered;
      if agents == [] || profiles == [] || RevisionFor(pack, "", agents, profiles, "1", None).None? then None
      else Some(Prepared(pack, agents, profiles))
  }

  function DeclaredAgents(pack: Pack): Option<seq<string>> {
    if CodeRepair(pack) then Some(["workspace-agent"]) else FamilyAgents(pack.family)
  }

  lemma {:induction false} FilterKeeps(s: seq<string>, keep: string -> bool)
    ensures forall x :: x in Filter(s, keep) <==> x in s && keep(x)
  {
    if s != [] {
      FilterKeeps(s[1..], keep);
      assert s == [s[0]] + s[1..];
    }
  }

  predicate Offers(catalog: Catalog, agents: seq<string>, profile: string) {
    exists a :: a in agents && a in catalog.profiles && profile in catalog.profiles[a]
  }

  lemma {:induction false} ProfilesAreOffered(agents: seq<string>, catalog: Catalog, profile: string)
    ensures profile in ProfilesOf(agents, catalog) <==> Offers(catalog, agents, profile)
  {
    if agents != [] {
      ProfilesAreOffered(agents[1..], catalog, profile);
      assert agents == [agents[0]] + agents[1..];
      if profile in ProfilesOf(agents, catalog) && !Offers(catalog, agents[1..], profile) {
        assert agents[0] in agents;
      }
    }
  }

  /** A pack is bound to exactly its declared agents that are registered and exactly the
      approved profiles of those, code repair to its one profile only. */
  lemma PreparedIsBound(pack: Pack, catalog: Catalog)
    requires Prepare(pack, catalog).Some?
    ensures var p := Prepare(pack, catalog).value;
      && p.pack == pack && p.agents != [] && p.profiles != []
      && (forall a :: a in p.agents <==> a in DeclaredAgents(pack).value && a in catalog.agents)
      && (forall r :: r in p.profiles <==>
            Offers(catalog, p.agents, r) && (CodeRepair(pack) ==> r == CODE_REPAIR_PROFILE))
  {
    hide Filter, ProfilesOf, RevisionFor, FamilyAgents;
    var p := Prepare(pack, catalog).value;
    FilterKeeps(DeclaredAgents(pack).value, a => a in catalog.agents);
    FilterKeeps(ProfilesOf(p.agents, catalog), r => r == CODE_REPAIR_PROFILE);
    forall r ensures r in ProfilesOf(p.agents, catalog) <==> Offers(catalog, p.agents, r) {
      ProfilesAreOffered(p.agents, catalog, r);
    }
  }

  /** The revision of a bound pack under a version and predecessor. */
  function Built(p: Prepared, version: string, supersedes: Option<string>): Revision {
    Revision(KeyOf(p.pack), version, supersedes, p.pack.owner, p.pack.content, p.agents, p.profiles)
  }

  /** The approved head of a lineage is the shipped material, digest for digest. */
  predicate HeadIs(l: Lineage, p: Prepared) {
    && l.head.At? && l.head.version in l.rows
    && RevisionFor(p.pack, "", p.agents, p.profiles, l.head.version, l.rows[l.head.version].supersedes)
       == Some(l.rows[l.head.version].digest)
  }

  predicate Converged(store: Store, p: Prepared) {
    HeadIs(LineageOf(store, KeyOf(p.pack)), p)
  }

  /** A release number, printed as `str` prints it. */
  predicate Numbered(version: string) {
    Decimal.IsNumeral(version) && version == Decimal.Print(Decimal.Value(version))
  }

  function Rank(version: string): nat {
    if Decimal.IsNumeral(version) then Decimal.Value(version) else 0
  }

  lemma RankOfPrint(k: nat)
    ensures Rank(Decimal.Print(k)) == k && Numbered(Decimal.Print(k))
  {
    Decimal.ValueOfPrint(k);
  }

  /** The version before a release number, if there is one. */
  function Previous(version: string): Option<string> {
    if Rank(version) <= 1 then None else Some(Decimal.Print(Rank(version) - 1))
  }

  /** A revision as this loader leaves it: superseding the version before its own, approved if
      it is the head and deprecated otherwise, and of the owner of the definition. */
  predicate Linked(l: Lineage, version: string)
    requires version in l.rows
  {
    var row := l.rows[version];
    && row.supersedes == Previous(version)
    && row.lifecycle == (if l.head == At(version) then Approved else Deprecated)
    && row.digest.version == version && row.digest.supersedes == row.supersedes
    && l.owner == Some(row.digest.owner)
  }

  /** A lineage this loader may have left: versions 1 to n, each superseding the one before, and
      a head that is version n or vacant. */
  predicate Linear(l: Lineage) {
    var n := |l.rows|;
    && (forall k :: 1 <= k <= n ==> Decimal.Print(k) in l.rows)
    && (forall v :: v in l.rows ==> Numbered(v) && 1 <= Rank(v) <= n && Linked(l, v))
    && if n == 0 then !l.head.At? else l.head == Vacant || l.head == At(Decimal.Print(n))
  }

  /** No two revisions supersede the same one, and no two supersede none: the two uniqueness
      constraints of the table. */
  predicate Unbranched(l: Lineage) {
    forall a, b :: a in l.rows && b in l.rows && l.rows[a].supersedes == l.rows[b].supersedes ==> a == b
  }

  /** A link of a linear lineage goes to the version before. */
  lemma LinkDescends(l: Lineage, version: string)
    requires Linear(l) && version in l.rows
    ensures version == Decimal.Print(Rank(version)) && 1 <= Rank(version) <= |l.rows|
    ensures var link := l.rows[version].supersedes;
      if Rank(version) == 1 then link.None?
      else
        && link == Some(Decimal.Print(Rank(version) - 1))
        && link.value in l.rows && Rank(link.value) == Rank(version) - 1
  {
    hide Decimal.Print, Linear, Rank;
    VersionIsPrinted(l, version);
    LinkIsPrevious(l, version);
    if Rank(version) > 1 {
      RankOfPrint(Rank(version) - 1);
    }
  }

  lemma LinkIsPrevious(l: Lineage, version: string)
    requires Linear(l) && version in l.rows
    ensures l.rows[version].supersedes == Previous(version)
  {
    hide Previous, Rank, Numbered;
    assert Linked(l, version);
  }

  lemma VersionIsPrinted(l: Lineage, version: string)
    requires Linear(l) && version in l.rows
    ensures version == Decimal.Print(Rank(version)) && 1 <= Rank(version) <= |l.rows|
    ensures forall k :: 1 <= k <= |l.rows| ==> Decimal.Print(k) in l.rows
  {
    hide Decimal.Print, Decimal.Value, Linked;
    assert Numbered(version);
  }

  /** The versions at the end of a linear lineage. */
  lemma LastOfLinear(l: Lineage)
    requires Linear(l)
    ensures Decimal.Print(|l.rows| + 1) !in l.rows
    ensures if l.rows == map[] then !l.head.At?
            else Decimal.Print(|l.rows|) in l.rows && (l.head == Vacant || l.head == At(Decimal.Print(|l.rows|)))
  {
    hide Decimal.Print, Decimal.Value, Numbered, Linked;
    RankOfPrint(|l.rows| + 1);
  }

  lemma LinearIsUnbranched(l: Lineage)
    requires Linear(l)
    ensures Unbranched(l)
  {
    hide Decimal.Print, Decimal.Value, Linear, Rank;
    forall a, b | a in l.rows && b in l.rows && l.rows[a].supersedes == l.rows[b].supersedes ensures a == b {
      LinkDescends(l, a);
      LinkDescends(l, b);
    }
  }

  /** No revision is removed or rewritten, and the owner stays. */
  predicate Grows(before: Lineage, after: Lineage) {
    && (before.owner.Some? ==> after.owner == before.owner)
    && forall v :: v in before.rows ==>
      && v in after.rows && after.rows[v].digest == before.rows[v].digest
      && after.rows[v].supersedes == before.rows[v].supersedes
  }

  ghost predicate SoundStore(store: Store) {
    forall key :: Linear(LineageOf(store, key))
  }

  /** The versions a revision goes back through. */
  function Chain(l: Lineage, version: string): seq<string>
    requires Linear(l) && version in l.rows
    decreases Rank(version)
  {
    LinkDescends(l, version);
    if l.rows[version].supersedes.None? then [version]
    else [version] + Chain(l, l.rows[version].supersedes.value)
  }

  /** The chain of version k is k, k - 1 and so on, all the way to 1. */
  lemma {:induction false} ChainIsComplete(l: Lineage, version: string)
    requires Linear(l) && version in l.rows
    ensures |Chain(l, version)| == Rank(version)
    ensures forall k :: 0 <= k < Rank(version) ==> Chain(l, version)[k] == Decimal.Print(Rank(version) - k)
    decreases Rank(version)
  {
    hide Decimal.Print, Decimal.Value, Linear;
    LinkDescends(l, version);
    assert version == Decimal.Print(Rank(version));
    if l.rows[version].supersedes.Some? {
      ChainIsComplete(l, l.rows[version].supersedes.value);
    }
  }

  /** `max(numbers)`. */
  predicate IsMaximum(l: Lineage, m: nat) {
    && (exists v :: v in l.rows && Decimal.IsNumeral(v) && Decimal.Value(v) == m)
    && (forall v :: v in l.rows ==> Decimal.IsNumeral(v) && Decimal.Value(v) <= m)
  }

  function WithDeprecated(l: Lineage, version: string): Lineage
    requires version in l.rows
  {
    Lineage(l.owner, l.rows[version := l.rows[version].(lifecycle := Deprecated)],
      if l.head == At(version) then Vacant else l.head)
  }

  /** The lineage with its head, if any, deprecated. */
  function Cleared(l: Lineage): Lineage {
    if l.head.At? && l.head.version in l.rows then WithDeprecated(l, l.head.version) else l
  }

  /** The row of a revision: the one stored under its version, or a new draft. */
  function Drafted(l: Lineage, r: Revision): Row {
    if r.version in l.rows then l.rows[r.version] else Row(r, r.supersedes, Draft)
  }

  /** Draft, submission and approval of a revision go through: the definition has its owner, a
      row under its version is a draft of it, its predecessor exists and has no other successor,
      and the head is its predecessor, or vacant behind a deprecated one. */
  predicate Accepts(l: Lineage, r: Revision) {
    var row := Drafted(l, r);
    && (l.owner.Some? ==> l.owner.value == r.owner)
    && row.digest == r && row.lifecycle == Draft
    && (r.supersedes.Some? ==> r.supersedes.value in l.rows)
    && (forall v :: v in l.rows && v != r.version ==> l.rows[v].supersedes != r.supersedes)
    && Follows(l, row)
  }

  /** What approval asks of the head. */
  predicate Follows(l: Lineage, row: Row) {
    match l.head
    case NoHead => true
    case At(version) => row.supersedes == Some(version)
    case Vacant =>
      row.supersedes.Some? ==>
        && row.supersedes.value in l.rows && l.rows[row.supersedes.value].lifecycle in {Deprecated, Retired}
  }

  /** The lineage behind a revision's approval. */
  function Headed(l: Lineage, r: Revision): Lineage {
    Lineage(Some(if l.owner.Some? then l.owner.value else r.owner),
      l.rows[r.version := Drafted(l, r).(lifecycle := Approved)], At(r.version))
  }

  /** `create_draft` goes through. */
  predicate Draftable(l: Lineage, r: Revision) {
    && (l.owner.Some? ==> l.owner.value == r.owner)
    && (r.supersedes.Some? ==> r.supersedes.value in l.rows)
    && (forall v :: v in l.rows && v != r.version ==> l.rows[v].supersedes != r.supersedes)
    && Drafted(l, r).digest == r
  }

  function WithDraft(l: Lineage, r: Revision): Lineage {
    Lineage(Some(r.owner), l.rows[r.version := Drafted(l, r)], l.head)
  }

  function WithLifecycle(l: Lineage, version: string, lifecycle: Lifecycle): Lineage
    requires version in l.rows
  {
    l.(rows := l.rows[version := l.rows[version].(lifecycle := lifecycle)])
  }

  /** Draft, submission and approval, one after the other. */
  lemma AcceptedInSteps(l: Lineage, r: Revision)
    ensures r.version in WithDraft(l, r).rows
    ensures var drafted := WithDraft(l, r);
      var submitted := WithLifecycle(drafted, r.version, InReview);
      && r.version in submitted.rows && submitted.rows[r.version].lifecycle == InReview
      && (Accepts(l, r) <==>
            && Draftable(l, r) && drafted.rows[r.version].lifecycle == Draft
            && Follows(submitted, submitted.rows[r.version]))
      && (Draftable(l, r) ==>
            WithLifecycle(submitted, r.version, Approved).(head := At(r.version)) == Headed(l, r))
  {
  }

  /** One more than the maximum is a new number, larger than every other. */
  lemma NextIsNew(l: Lineage, m: nat)
    requires IsMaximum(l, m)
    ensures Numbered(Decimal.Print(m + 1)) && Decimal.Print(m + 1) !in l.rows
    ensures forall v :: v in l.rows ==> Rank(v) < Rank(Decimal.Print(m + 1))
  {
    Decimal.ValueOfPrint(m + 1);
  }

  lemma MaximumIsUnique(l: Lineage, m: nat)
    requires IsMaximum(l, m)
    ensures forall other: nat :: IsMaximum(l, other) ==> other == m
  {
  }

  /** The maximum of a linear lineage is its length. */
  lemma LinearMaximum(l: Lineage, m: nat)
    requires Linear(l) && l.rows != map[]
    ensures IsMaximum(l, m) <==> m == |l.rows|
  {
    hide Decimal.Print, Decimal.Value, Linked;
    var n := |l.rows|;
    var last := Decimal.Print(n);
    RankOfPrint(n);
    assert last in l.rows && Decimal.Value(last) == n;
    forall v | v in l.rows ensures Decimal.IsNumeral(v) && Decimal.Value(v) <= n {
      assert Numbered(v) && Rank(v) <= n;
    }
  }

  /** What stands before the first dot and behind it. */
  lemma SplitAtDot(a: string, b: string, c: string, d: string)
    requires '.' !in a && '.' !in c && a + "." + b == c + "." + d
    ensures a == c && b == d
  {
    IndexOfFirst(a, '.', b);
    IndexOfFirst(c, '.', d);
    assert a == (a + "." + b)[..|a|] && c == (c + "." + d)[..|c|];
    assert b == (a + "." + b)[|a| + 1..] && d == (c + "." + d)[|c| + 1..];
  }

  lemma KnownFamily(pack: Pack)
    requires DeclaredAgents(pack).Some?
    ensures '.' !in pack.family
  {
  }

  /** A pack that is published has the excluded name in no family. */
  lemma ExcludedIsNotPublished(pack: Pack, family: string)
    requires DeclaredAgents(pack).Some? && pack.name != EXCLUDED_NAME && '.' !in family
    ensures KeyOf(pack) != family + "." + EXCLUDED_NAME
  {
    KnownFamily(pack);
    hide DeclaredAgents;
    if KeyOf(pack) == family + "." + EXCLUDED_NAME {
      SplitAtDot(pack.family, pack.name, family, EXCLUDED_NAME);
    }
  }

  /** Every pack bound, in order, under distinct keys; or a refusal. */
  function PrepareAll(packs: seq<Pack>, catalog: Catalog): Option<seq<Prepared>>
    decreases |packs|
  {
    if packs == [] then Some([])
    else
      var before, pack := PrepareAll(packs[..|packs| - 1], catalog), packs[|packs| - 1];
      if before.None? || pack.name == EXCLUDED_NAME then before
      else
        var last := Prepare(pack, catalog);
        if last.None? || HasKey(before.value, KeyOf(pack)) then None
        else Some(before.value + [last.value])
  }

  predicate HasKey(prepared: seq<Prepared>, key: string) {
    exists k :: 0 <= k < |prepared| && KeyOf(prepared[k].pack) == key
  }

  predicate DistinctKeys(prepared: seq<Prepared>) {
    forall i, j :: 0 <= i < j < |prepared| ==> KeyOf(prepared[i].pack) != KeyOf(prepared[j].pack)
  }

  /** Distinct keys, none of them the excluded one, and revisions that can be built. */
  predicate Publishable(prepared: seq<Prepared>) {
    && DistinctKeys(prepared)
    && forall k :: 0 <= k < |prepared| ==>
         && KeyOf(prepared[k].pack) != EXCLUDED_KEY
         && RevisionFor(prepared[k].pack, "", prepared[k].agents, prepared[k].profiles, "1", None).Some?
  }

  /** What the preparation promises of the packs it lets through. */
  lemma {:induction false} PreparedIsPublishable(packs: seq<Pack>, catalog: Catalog)
    ensures PrepareAll(packs, catalog).Some? ==> Publishable(PrepareAll(packs, catalog).value)
  {
    hide KeyOf, DeclaredAgents, Publishable, RevisionFor;
    if packs == [] {
      NonePublishable();
    } else if PrepareAll(packs, catalog).Some? {
      var before, pack := packs[..|packs| - 1], packs[|packs| - 1];
      PreparedIsPublishable(before, catalog);
      if pack.name != EXCLUDED_NAME {
        NotExcludedKey(pack);
        PublishableOneMore(PrepareAll(before, catalog).value, Prepare(pack, catalog).value);
      }
    }
  }

  lemma NotExcludedKey(pack: Pack)
    requires DeclaredAgents(pack).Some? && pack.name != EXCLUDED_NAME
    ensures KeyOf(pack) != EXCLUDED_KEY
  {
    hide KeyOf, DeclaredAgents;
    ExcludedIsNotPublished(pack, "reliability");
  }

  lemma NonePublishable()
    ensures Publishable([])
  {
  }

  lemma PublishableOneMore(prepared: seq<Prepared>, p: Prepared)
    requires Publishable(prepared) && !HasKey(prepared, KeyOf(p.pack)) && KeyOf(p.pack) != EXCLUDED_KEY
    requires RevisionFor(p.pack, "", p.agents, p.profiles, "1", None).Some?
    ensures Publishable(prepared + [p])
  {
    hide KeyOf, RevisionFor;
  }

  /** The excluded name is left out of every family. */
  lemma {:induction false} NeverExcluded(packs: seq<Pack>, catalog: Catalog, family: string)
    requires '.' !in family && PrepareAll(packs, catalog).Some?
    ensures !HasKey(PrepareAll(packs, catalog).value, family + "." + EXCLUDED_NAME)
  {
    hide KeyOf, DeclaredAgents;
    if packs != [] {
      var before, pack := packs[..|packs| - 1], packs[|packs| - 1];
      NeverExcluded(before, catalog, family);
      if pack.name != EXCLUDED_NAME {
        ExcludedIsNotPublished(pack, family);
      }
    }
  }

  /** One more than the maximum, superseding the head or else the maximum. */
  predicate Succeeds(before: Lineage, revision: Revision, m: nat) {
    && IsMaximum(before, m) && revision.version == Decimal.Print(m + 1)
    && revision.supersedes == Some(if before.head.At? then before.head.version else Decimal.Print(m))
  }

  /** What publishing one pack makes of its lineage: version 1 when there is none, otherwise
      a successor; the store has accepted it behind the deprecated head. */
  ghost predicate Advances(before: Lineage, after: Lineage, revision: Revision) {
    && after == Headed(Cleared(before), revision)
    && revision.version !in before.rows && Accepts(Cleared(before), revision)
    && if before.rows == map[] then revision.version == "1" && revision.supersedes.None?
       else exists m: nat :: Succeeds(before, revision, m)
  }

  lemma ClearedKeepsRows(l: Lineage)
    ensures Cleared(l).rows.Keys == l.rows.Keys && |Cleared(l).rows| == |l.rows| && Grows(l, Cleared(l))
    ensures forall v :: v in l.rows ==> Cleared(l).rows[v].supersedes == l.rows[v].supersedes
  {
    assert |Cleared(l).rows| == |Cleared(l).rows.Keys| && |l.rows| == |l.rows.Keys|;
  }

  /** Deprecation removes nothing, and leaves a linear lineage linear and without a head. */
  lemma ClearingKeeps(l: Lineage)
    ensures Grows(l, Cleared(l))
    ensures Linear(l) ==> Linear(Cleared(l)) && !Cleared(l).head.At?
  {
    hide Decimal.Print, Rank, Numbered, Linked, Cleared;
    ClearedKeepsRows(l);
    if Linear(l) {
      ClearedHead(l);
      forall v | v in l.rows ensures Linked(Cleared(l), v) {
        ClearedKeepsLink(l, v);
      }
    }
  }

  lemma ClearedHead(l: Lineage)
    requires Linear(l)
    ensures Cleared(l).owner == l.owner && Cleared(l).head == if l.head.At? then Vacant else l.head
  {
    hide Linked, Numbered, Rank;
  }

  lemma ClearedKeepsLink(l: Lineage, v: string)
    requires v in l.rows && Linked(l, v)
    ensures v in Cleared(l).rows && Linked(Cleared(l), v)
  {
    hide Previous;
  }

  /** Behind a cleared head the last version is deprecated, and nothing supersedes it. */
  lemma LastIsFree(l: Lineage)
    requires Linear(l) && l.rows != map[]
    ensures var n, cleared := |l.rows|, Cleared(l);
      && Decimal.Print(n + 1) !in cleared.rows && Decimal.Print(n) in cleared.rows
      && cleared.rows[Decimal.Print(n)].lifecycle == Deprecated && cleared.head == Vacant && cleared.owner == l.owner
      && (l.head.At? ==> l.head.version == Decimal.Print(n))
      && (forall v :: v in cleared.rows ==> cleared.rows[v].supersedes != Some(Decimal.Print(n)))
  {
    var n, cleared := |l.rows|, Cleared(l);
    hide Decimal.Print, Rank, Linear, Cleared, Linked;
    ClearedKeepsRows(l);
    LastOfLinear(l);
    ClearingKeeps(l);
    ClearedHead(l);
    DeprecatedUnlessHead(cleared, Decimal.Print(n));
    forall v | v in cleared.rows ensures cleared.rows[v].supersedes != Some(Decimal.Print(n)) {
      LinkDescends(cleared, v);
      RankOfPrint(n);
    }
  }

  lemma DeprecatedUnlessHead(l: Lineage, v: string)
    requires Linear(l) && v in l.rows && !l.head.At?
    ensures l.rows[v].lifecycle == Deprecated
  {
    hide Rank, Numbered, Previous;
    assert Linked(l, v);
  }

  /** The next version of a linear lineage: its number and its predecessor. */
  lemma NextOfLinear(before: Lineage, after: Lineage, revision: Revision)
    requires Linear(before) && Advances(before, after, revision)
    ensures revision.version == Decimal.Print(|before.rows| + 1)
    ensures revision.supersedes == if before.rows == map[] then None else Some(Decimal.Print(|before.rows|))
  {
    hide Headed, Accepts, Linked, IsMaximum, Linear, Cleared;
    if before.rows == map[] {
      assert Decimal.Print(1) == "1";
    } else {
      var m: nat :| Succeeds(before, revision, m);
      LinearMaximum(before, m);
      LastIsFree(before);
    }
  }

  /** Publishing one pack extends a linear lineage of n versions by version n + 1, which
      supersedes version n and is the head; nothing is removed. */
  lemma AdvanceKeepsLinear(before: Lineage, after: Lineage, revision: Revision)
    requires Linear(before) && Advances(before, after, revision)
    ensures Linear(after) && Grows(before, after) && |after.rows| == |before.rows| + 1
    ensures after.head == At(Decimal.Print(|after.rows|))
    ensures after.rows[Decimal.Print(|after.rows|)].digest == revision && Unbranched(after)
  {
    NextOfLinear(before, after, revision);
    ClearingKeeps(before);
    ClearedKeepsRows(before);
    HeadedKeepsLinear(Cleared(before), revision);
    AdvanceGrows(before, after, revision);
    LinearIsUnbranched(after);
  }

  lemma HeadedKeepsLinear(l: Lineage, revision: Revision)
    requires Linear(l) && !l.head.At? && Accepts(l, revision)
    requires revision.version == Decimal.Print(|l.rows| + 1)
    requires revision.supersedes == if l.rows == map[] then None else Some(Decimal.Print(|l.rows|))
    ensures Linear(Headed(l, revision)) && |Headed(l, revision).rows| == |l.rows| + 1
    ensures Headed(l, revision).rows[revision.version].digest == revision
  {
    hide Decimal.Print, Decimal.Value, Accepts, Headed, Linked;
    var n, after := |l.rows|, Headed(l, revision);
    RankOfPrint(n + 1);
    assert revision.version !in l.rows;
    HeadedRows(l, revision);
    forall v | v in after.rows ensures Numbered(v) && 1 <= Rank(v) <= n + 1 && Linked(after, v) {
      if v != revision.version {
        assert v in l.rows;
        HeadedKeepsLink(l, revision, v);
      } else {
        HeadedIsLinked(l, revision);
      }
    }
    forall k | 1 <= k <= n + 1 ensures Decimal.Print(k) in after.rows {
      assert k <= n ==> Decimal.Print(k) in l.rows;
    }
  }

  lemma HeadedRows(l: Lineage, revision: Revision)
    requires revision.version !in l.rows
    ensures var after := Headed(l, revision);
      && after.rows.Keys == l.rows.Keys + {revision.version} && |after.rows| == |l.rows| + 1
      && after.head == At(revision.version) && after.rows[revision.version].digest == revision
  {
    var after := Headed(l, revision);
    assert after.rows.Keys == l.rows.Keys + {revision.version};
    assert |after.rows| == |after.rows.Keys| && |l.rows| == |l.rows.Keys|;
  }

  lemma HeadedKeepsLink(l: Lineage, revision: Revision, v: string)
    requires v in l.rows && Linked(l, v) && !l.head.At? && revision.version !in l.rows
    ensures v in Headed(l, revision).rows && Linked(Headed(l, revision), v)
  {
    hide Decimal.Print, Previous;
  }

  lemma HeadedIsLinked(l: Lineage, revision: Revision)
    requires revision.version !in l.rows && Accepts(l, revision)
    requires revision.version == Decimal.Print(|l.rows| + 1)
    requires revision.supersedes == if l.rows == map[] then None else Some(Decimal.Print(|l.rows|))
    ensures Linked(Headed(l, revision), revision.version)
  {
    hide Decimal.Print, Decimal.Value;
    RankOfPrint(|l.rows| + 1);
  }

  lemma AdvanceGrows(before: Lineage, after: Lineage, revision: Revision)
    requires Advances(before, after, revision)
    ensures Grows(before, after)
  {
    hide Accepts;
    ClearedKeepsRows(before);
  }

  /** Whatever the lineage, the table's uniqueness constraints stay kept. */
  lemma AdvanceKeepsUnbranched(before: Lineage, after: Lineage, revision: Revision)
    requires Unbranched(before) && Advances(before, after, revision)
    ensures Unbranched(after)
  {
    hide Decimal.Print, Decimal.Value, Cleared, IsMaximum, Follows;
    ClearedKeepsRows(before);
    var l := Cleared(before);
    forall a, b | a in after.rows && b in after.rows && after.rows[a].supersedes == after.rows[b].supersedes
      ensures a == b
    {
      if a == revision.version || b == revision.version {
        assert forall v :: v in l.rows ==> l.rows[v].supersedes != revision.supersedes;
      }
    }
  }

  /** The revision that the loader would publish next to a lineage with a maximum. */
  function Successor(l: Lineage, p: Prepared, m: nat): Revision {
    Built(p, Decimal.Print(m + 1), Some(if l.head.At? then l.head.version else Decimal.Print(m)))
  }

  /** The loader can converge the lineage to the pack. */
  ghost predicate Loadable(l: Lineage, p: Prepared) {
    if l.rows == map[] then Accepts(l, Built(p, "1", None))
    else
      && (forall v :: v in l.rows ==> Decimal.IsNumeral(v))
      && (l.head.At? ==> l.head.version in l.rows)
      && (HeadIs(l, p) || Supersedable(l, p))
  }

  ghost predicate Supersedable(l: Lineage, p: Prepared) {
    && (l.head.At? ==> l.head.version in l.rows && l.rows[l.head.version].lifecycle == Approved)
    && exists m: nat :: IsMaximum(l, m) && Accepts(Cleared(l), Successor(l, p, m))
  }

  /** Behind its approval the revision of a pack is the head. */
  lemma HeadedIsHead(l: Lineage, p: Prepared, revision: Revision)
    requires RevisionFor(p.pack, "", p.agents, p.profiles, revision.version, revision.supersedes) == Some(revision)
    requires revision.version !in l.rows
    ensures HeadIs(Headed(l, revision), p)
  {
  }

  /** The pack has the owner of its key, if the key is defined. */
  predicate OwnerKept(l: Lineage, p: Prepared) {
    l.owner.Some? ==> l.owner.value == p.pack.owner
  }

  /** A linear lineage can be converged to any pack, unless it changes the owner of its key. */
  lemma LinearIsLoadable(l: Lineage, p: Prepared)
    requires Linear(l) && RevisionFor(p.pack, "", p.agents, p.profiles, "1", None).Some?
    ensures Loadable(l, p) <==> OwnerKept(l, p)
  {
    hide Decimal.Print, Decimal.Value;
    var n := |l.rows|;
    if n > 0 {
      LinearMaximum(l, n);
      forall v | v in l.rows ensures Decimal.IsNumeral(v) && Linked(l, v) {
        assert Numbered(v);
      }
      SuccessorAccepted(l, p);
      forall m: nat | IsMaximum(l, m) ensures m == n {
        LinearMaximum(l, m);
      }
    }
  }

  lemma SuccessorAccepted(l: Lineage, p: Prepared)
    requires Linear(l) && l.rows != map[]
    ensures Accepts(Cleared(l), Successor(l, p, |l.rows|)) <==> OwnerKept(l, p)
  {
    hide Decimal.Print, Decimal.Value, Linear, Cleared;
    var n, cleared := |l.rows|, Cleared(l);
    LastIsFree(l);
    assert Successor(l, p, n) == Built(p, Decimal.Print(n + 1), Some(Decimal.Print(n)));
  }

  predicate AllConverged(store: Store, prepared: seq<Prepared>) {
    forall k :: 0 <= k < |prepared| ==> Converged(store, prepared[k])
  }

  /** The keys of the packs whose head is not the shipped material, in pack order. */
  function StaleKeys(store: Store, prepared: seq<Prepared>): (keys: seq<string>)
    ensures keys == [] <==> AllConverged(store, prepared)
    ensures forall key :: key in keys ==> HasKey(prepared, key)
  {
    if prepared == [] then []
    else
      var before, last := prepared[..|prepared| - 1], prepared[|prepared| - 1];
      StaleKeys(store, before) + if Converged(store, last) then [] else [KeyOf(last.pack)]
  }

  function Keys(revisions: seq<Revision>): seq<string> {
    seq(|revisions|, k requires 0 <= k < |revisions| => revisions[k].key)
  }

  ghost predicate StoreGrows(before: Store, after: Store) {
    forall key :: Grows(LineageOf(before, key), LineageOf(after, key))
  }

  /** Every published revision has extended the lineage of its key, by itself alone. */
  ghost predicate Extended(before: Store, after: Store, published: seq<Revision>) {
    forall k :: 0 <= k < |published| ==>
      Advances(LineageOf(before, published[k].key), LineageOf(after, published[k].key), published[k])
  }

  /** Every other lineage is what it was, but for a cleared head of the excluded key. */
  ghost predicate ElseUnchanged(before: Store, after: Store, published: seq<Revision>) {
    forall key :: key !in Keys(published) ==>
      LineageOf(after, key)
      == if key == EXCLUDED_KEY then Cleared(LineageOf(before, key)) else LineageOf(before, key)
  }

  /** What a load that did not raise leaves behind: every bound pack's head is the shipped
      material, exactly the packs that were not are published, in pack order, each extending
      its lineage by one revision, and nothing else changes but the cleared excluded head. */
  ghost predicate Delivered(before: Store, after: Store, prepared: seq<Prepared>, published: seq<Revision>) {
    && AllConverged(after, prepared)
    && Keys(published) == StaleKeys(before, prepared)
    && EXCLUDED_KEY !in Keys(published)
    && Extended(before, after, published) && ElseUnchanged(before, after, published)
    && (published == [] && Cleared(LineageOf(before, EXCLUDED_KEY)) == LineageOf(before, EXCLUDED_KEY) ==>
          after == before)
  }

  /** The two stores agree on every other key. */
  ghost predicate DiffersOnlyAt(before: Store, after: Store, key: string) {
    forall other :: other != key ==> LineageOf(before, other) == LineageOf(after, other)
  }

  /** Nothing is removed, linear lineages stay linear, and none gains more than one revision. */
  ghost predicate HistoryKept(before: Store, after: Store) {
    && StoreGrows(before, after) && (SoundStore(before) ==> SoundStore(after))
    && (SoundStore(before) ==> forall key ::
          |LineageOf(before, key).rows| <= |LineageOf(after, key).rows| <= |LineageOf(before, key).rows| + 1)
  }

  /** What extended lineages and untouched ones make of the whole history. */
  lemma ExtendedKeepsHistory(before: Store, after: Store, published: seq<Revision>)
    requires Extended(before, after, published) && ElseUnchanged(before, after, published)
    ensures HistoryKept(before, after)
  {
    hide Advances, Linear, Grows, Cleared;
    forall key
      ensures Grows(LineageOf(before, key), LineageOf(after, key))
      ensures Linear(LineageOf(before, key)) ==> Linear(LineageOf(after, key))
      ensures Linear(LineageOf(before, key)) ==>
        |LineageOf(before, key).rows| <= |LineageOf(after, key).rows| <= |LineageOf(before, key).rows| + 1
    {
      KeyKeepsHistory(before, after, published, key);
    }
  }

  lemma KeyKeepsHistory(before: Store, after: Store, published: seq<Revision>, key: string)
    requires Extended(before, after, published) && ElseUnchanged(before, after, published)
    ensures Grows(LineageOf(before, key), LineageOf(after, key))
    ensures Linear(LineageOf(before, key)) ==> Linear(LineageOf(after, key))
    ensures Linear(LineageOf(before, key)) ==>
      |LineageOf(before, key).rows| <= |LineageOf(after, key).rows| <= |LineageOf(before, key).rows| + 1
  {
    hide Advances, Linear, Cleared;
    var l, m := LineageOf(before, key), LineageOf(after, key);
    if key in Keys(published) {
      var k :| 0 <= k < |published| && published[k].key == key;
      AdvanceGrows(l, m, published[k]);
      if Linear(l) {
        AdvanceKeepsLinear(l, m, published[k]);
      }
    } else {
      ClearingKeeps(l);
      ClearedKeepsRows(l);
    }
  }

  lemma GrowthTransitive(a: Store, b: Store, c: Store)
    requires StoreGrows(a, b) && StoreGrows(b, c)
    ensures StoreGrows(a, c)
  {
    forall key ensures Grows(LineageOf(a, key), LineageOf(c, key)) {
      assert Grows(LineageOf(a, key), LineageOf(b, key)) && Grows(LineageOf(b, key), LineageOf(c, key));
    }
  }

  /** What publishing, or leaving alone, one pack does to the store. */
  ghost predicate LoadedOne(before: Store, after: Store, p: Prepared, published: Option<Revision>) {
    && DiffersOnlyAt(before, after, KeyOf(p.pack)) && Converged(after, p)
    && match published
       case None => after == before
       case Some(revision) =>
         && revision.key == KeyOf(p.pack) && !Converged(before, p)
         && Advances(LineageOf(before, revision.key), LineageOf(after, revision.key), revision)
  }

  /** The publication loop so far: the packs of `done` have converged, exactly the stale ones
      were published, each extending its lineage, and other keys are untouched. */
  ghost predicate Progressed(start: Store, now: Store, done: seq<Prepared>, published: seq<Revision>) {
    && AllConverged(now, done) && Keys(published) == StaleKeys(start, done)
    && Extended(start, now, published)
    && (forall key :: key !in Keys(published) ==> LineageOf(now, key) == LineageOf(start, key))
    && (published == [] ==> now == start)
  }

  /** One more pack converges without disturbing those before it. */
  lemma ConvergeOneMore(start: Store, before: Store, after: Store, prepared: seq<Prepared>, k: nat)
    requires k < |prepared| && DistinctKeys(prepared)
    requires AllConverged(before, prepared[..k]) && Converged(after, prepared[k])
    requires DiffersOnlyAt(before, after, KeyOf(prepared[k].pack))
    requires LineageOf(before, KeyOf(prepared[k].pack)) == LineageOf(start, KeyOf(prepared[k].pack))
    ensures AllConverged(after, prepared[..k + 1])
    ensures StaleKeys(start, prepared[..k + 1])
            == StaleKeys(start, prepared[..k])
               + if Converged(before, prepared[k]) then [] else [KeyOf(prepared[k].pack)]
  {
    hide HeadIs;
    var key := KeyOf(prepared[k].pack);
    assert prepared[..k + 1][..k] == prepared[..k];
    forall i | 0 <= i < k ensures Converged(after, prepared[i]) {
      assert Converged(before, prepared[..k][i]) && KeyOf(prepared[i].pack) != key;
    }
  }

  /** The key of the next pack is none of those before it. */
  lemma NextKeyIsNew(prepared: seq<Prepared>, k: nat)
    requires k < |prepared| && DistinctKeys(prepared)
    ensures !HasKey(prepared[..k], KeyOf(prepared[k].pack))
  {
  }

  lemma ExtendOneMore(
    start: Store, before: Store, after: Store, published: seq<Revision>, one: Revision)
    requires Extended(start, before, published) && DiffersOnlyAt(before, after, one.key)
    requires one.key !in Keys(published) && LineageOf(before, one.key) == LineageOf(start, one.key)
    requires Advances(LineageOf(before, one.key), LineageOf(after, one.key), one)
    ensures Extended(start, after, published + [one])
  {
    hide Advances;
    forall k | 0 <= k < |published|
      ensures Advances(LineageOf(start, published[k].key), LineageOf(after, published[k].key), published[k])
    {
      assert Keys(published)[k] == published[k].key;
    }
  }

  lemma ProgressOneMore(
    start: Store, before: Store, after: Store, prepared: seq<Prepared>, k: nat,
    published: seq<Revision>, one: Option<Revision>)
    requires k < |prepared| && DistinctKeys(prepared)
    requires Progressed(start, before, prepared[..k], published) && LoadedOne(before, after, prepared[k], one)
    ensures Progressed(start, after, prepared[..k + 1], published + if one.Some? then [one.value] else [])
  {
    hide Converged, AllConverged, StaleKeys, HasKey, KeyOf, Advances, DistinctKeys, LineageOf, Extended;
    assert one.Some? ==> Keys(published + [one.value]) == Keys(published) + [one.value.key];
    assert published + [] == published;
    NextKeyIsNew(prepared, k);
    StaleAreKeys(start, prepared[..k], KeyOf(prepared[k].pack));
    ConvergeOneMore(start, before, after, prepared, k);
    if one.Some? {
      ExtendOneMore(start, before, after, published, one.value);
    }
  }

  lemma NothingProgressed(start: Store, prepared: seq<Prepared>)
    ensures Progressed(start, start, prepared[..0], []) && AllLoadable(start, prepared[..0])
  {
  }

  /** The lineage of the next pack is what it was. */
  lemma NextUntouched(start: Store, now: Store, prepared: seq<Prepared>, k: nat, published: seq<Revision>)
    requires k < |prepared| && DistinctKeys(prepared) && Progressed(start, now, prepared[..k], published)
    ensures LineageOf(now, KeyOf(prepared[k].pack)) == LineageOf(start, KeyOf(prepared[k].pack))
  {
    hide KeyOf, Extended, AllConverged, StaleKeys;
    NextKeyIsNew(prepared, k);
    StaleAreKeys(start, prepared[..k], KeyOf(prepared[k].pack));
  }

  lemma StaleAreKeys(store: Store, prepared: seq<Prepared>, key: string)
    requires !HasKey(prepared, key)
    ensures key !in StaleKeys(store, prepared)
  {
  }

  lemma {:induction false} StaleDependsOnKeys(a: Store, b: Store, prepared: seq<Prepared>)
    requires forall k :: 0 <= k < |prepared| ==>
      LineageOf(a, KeyOf(prepared[k].pack)) == LineageOf(b, KeyOf(prepared[k].pack))
    ensures StaleKeys(a, prepared) == StaleKeys(b, prepared)
  {
    if prepared != [] {
      StaleDependsOnKeys(a, b, prepared[..|prepared| - 1]);
    }
  }

  lemma DeliveredAfterClearing(start: Store, cleared: Store, after: Store,
      prepared: seq<Prepared>, published: seq<Revision>)
    requires Publishable(prepared) && DiffersOnlyAt(start, cleared, EXCLUDED_KEY)
    requires LineageOf(cleared, EXCLUDED_KEY) == Cleared(LineageOf(start, EXCLUDED_KEY))
    requires Cleared(LineageOf(start, EXCLUDED_KEY)) == LineageOf(start, EXCLUDED_KEY) ==> cleared == start
    requires Progressed(cleared, after, prepared, published)
    ensures Delivered(start, after, prepared, published)
  {
    hide Advances, Converged, KeyOf;
    StaleDependsOnKeys(start, cleared, prepared);
    assert !HasKey(prepared, EXCLUDED_KEY);
    StaleAreKeys(start, prepared, EXCLUDED_KEY);
    forall k | 0 <= k < |published|
      ensures Advances(LineageOf(start, published[k].key), LineageOf(after, published[k].key), published[k])
    {
      assert Keys(published)[k] == published[k].key;
    }
  }

  /** A load over packs already delivered publishes nothing and changes nothing, whatever
      commit it runs at. */
  lemma SecondLoadIsSilent(
    start: Store, once: Store, twice: Store, prepared: seq<Prepared>, first: seq<Revision>, second: seq<Revision>)
    requires Delivered(start, once, prepared, first) && Delivered(once, twice, prepared, second)
    ensures second == [] && twice == once
  {
    hide Advances;
    assert |Keys(second)| == |second|;
  }

  /** The excluded name in each family: no load publishes it, and the head it had is cleared
      for the reliability family only. */
  lemma ExcludedHeads(before: Store, after: Store, packs: seq<Pack>, catalog: Catalog,
      published: seq<Revision>, family: string)
    requires '.' !in family && SoundStore(before) && PrepareAll(packs, catalog).Some?
    requires Delivered(before, after, PrepareAll(packs, catalog).value, published)
    ensures var key := family + "." + EXCLUDED_NAME;
      && key !in Keys(published)
      && (LineageOf(after, key).head.At? <==> family != "reliability" && LineageOf(before, key).head.At?)
      && (family != "reliability" ==> LineageOf(after, key) == LineageOf(before, key))
  {
    hide Advances, Cleared, Linear, AllConverged, Extended, PrepareAll, StaleKeys;
    var key := family + "." + EXCLUDED_NAME;
    NeverExcluded(packs, catalog, family);
    StaleAreKeys(before, PrepareAll(packs, catalog).value, key);
    ExcludedKeyOf(family);
    ClearingKeeps(LineageOf(before, key));
    assert Linear(LineageOf(before, key));
  }

  lemma ExcludedKeyOf(family: string)
    requires '.' !in family
    ensures family + "." + EXCLUDED_NAME == EXCLUDED_KEY <==> family == "reliability"
  {
    if family + "." + EXCLUDED_NAME == EXCLUDED_KEY {
      SplitAtDot(family, EXCLUDED_NAME, "reliability", EXCLUDED_NAME);
    }
  }

  /** The head of the excluded key can be deprecated, if it has one. */
  predicate ExcludedClears(store: Store) {
    var l := LineageOf(store, EXCLUDED_KEY);
    l.head.At? && l.head.version in l.rows ==> l.rows[l.head.version].lifecycle == Approved
  }

  ghost predicate AllLoadable(store: Store, prepared: seq<Prepared>) {
    forall k :: 0 <= k < |prepared| ==> Loadable(LineageOf(store, KeyOf(prepared[k].pack)), prepared[k])
  }

  /** Clearing the excluded head does not decide about any pack. */
  lemma SameLoadable(start: Store, cleared: Store, prepared: seq<Prepared>)
    requires Publishable(prepared) && DiffersOnlyAt(start, cleared, EXCLUDED_KEY)
    ensures AllLoadable(start, prepared) <==> AllLoadable(cleared, prepared)
  {
    hide Loadable, KeyOf, RevisionFor;
    forall k | 0 <= k < |prepared|
      ensures LineageOf(start, KeyOf(prepared[k].pack)) == LineageOf(cleared, KeyOf(prepared[k].pack))
    {
    }
  }

  lemma DeliveredKeepsHistory(before: Store, after: Store, prepared: seq<Prepared>, published: seq<Revision>)
    requires Delivered(before, after, prepared, published)
    ensures HistoryKept(before, after)
  {
    hide Extended, ElseUnchanged, AllConverged, StaleKeys, HistoryKept;
    ExtendedKeepsHistory(before, after, published);
  }

  /** A load goes through, as far as the packs and the store decide it. */
  ghost predicate Goes(store: Store, packs: seq<Pack>, catalog: Catalog) {
    && packs != [] && PrepareAll(packs, catalog).Some? && ExcludedClears(store)
    && AllLoadable(store, PrepareAll(packs, catalog).value)
  }

  /** Over a store this loader has left, a load goes through exactly when there are packs, each
      can be bound, and none changes the owner of its key. */
  lemma SoundStoreGoes(store: Store, packs: seq<Pack>, catalog: Catalog)
    requires SoundStore(store)
    ensures Goes(store, packs, catalog) <==>
      && packs != [] && PrepareAll(packs, catalog).Some?
      && forall k :: 0 <= k < |PrepareAll(packs, catalog).value| ==>
           var p := PrepareAll(packs, catalog).value[k];
           OwnerKept(LineageOf(store, KeyOf(p.pack)), p)
  {
    hide Loadable, OwnerKept, Linear, RevisionFor, KeyOf, PrepareAll;
    if PrepareAll(packs, catalog).Some? {
      var prepared := PrepareAll(packs, catalog).value;
      PreparedIsPublishable(packs, catalog);
      forall k | 0 <= k < |prepared|
        ensures Loadable(LineageOf(store, KeyOf(prepared[k].pack)), prepared[k])
                <==> OwnerKept(LineageOf(store, KeyOf(prepared[k].pack)), prepared[k])
      {
        LinearIsLoadable(LineageOf(store, KeyOf(prepared[k].pack)), prepared[k]);
      }
    }
    LinearClears(LineageOf(store, EXCLUDED_KEY));
  }

  /** A pack that changes the owner its key once had is refused by every later load. */
  lemma ChangedOwnerStaysRefused(earlier: Store, now: Store, packs: seq<Pack>, catalog: Catalog, k: nat)
    requires StoreGrows(earlier, now) && SoundStore(now)
    requires PrepareAll(packs, catalog).Some? && k < |PrepareAll(packs, catalog).value|
    requires var p := PrepareAll(packs, catalog).value[k];
      !OwnerKept(LineageOf(earlier, KeyOf(p.pack)), p)
    ensures !Goes(now, packs, catalog)
  {
    hide Linear, KeyOf, PrepareAll, Goes;
    var p := PrepareAll(packs, catalog).value[k];
    assert Grows(LineageOf(earlier, KeyOf(p.pack)), LineageOf(now, KeyOf(p.pack)));
    SoundStoreGoes(now, packs, catalog);
  }

  lemma LinearClears(l: Lineage)
    requires Linear(l)
    ensures l.head.At? && l.head.version in l.rows ==> l.rows[l.head.version].lifecycle == Approved
  {
  }
}

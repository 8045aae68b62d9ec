/** `load` and `_publish` of tools/load_first_party_skill_packs.py over the guidance store. */
module SkillLoader {
  import opened Common
  import opened SkillPacks
  import opened SkillResults
  import Decimal

  class Loader {
    var store: Store

    /** Whether the calls raise nothing but what the rules of the store decide. */
    const reliable: bool

    method MayRaise() returns (raised: bool)
      ensures reliable ==> !raised
    {
      raised := *;
      raised := raised && !reliable;
    }

    /** `store.deprecate`: an approved revision with the digest the caller expects; the head is
        vacated when it is that version. */
    method Deprecate(key: string, version: string, expected: Revision) returns (raised: bool)
      modifies this
      ensures var l := old(LineageOf(store, key));
        if version in l.rows && l.rows[version].lifecycle == Approved && l.rows[version].digest == expected
        then reliable ==> !raised else raised
      ensures !raised ==> DiffersOnlyAt(old(store), store, key)
      ensures !raised ==> LineageOf(store, key) == WithDeprecated(old(LineageOf(store, key)), version)
    {
      raised := MayRaise();
      var l := LineageOf(store, key);
      if raised || version !in l.rows || l.rows[version].lifecycle != Approved || l.rows[version].digest != expected {
        return true;
      }
      var head := if l.head == At(version) then Vacant else l.head;
      store := store[key := l.(rows := l.rows[version := l.rows[version].(lifecycle := Deprecated)], head := head)];
    }

    /** `store.create_draft`. */
    method CreateDraft(revision: Revision) returns (raised: bool)
      modifies this
      ensures var l := old(LineageOf(store, revision.key));
        if && (l.owner.None? || l.owner.value == revision.owner)
           && (revision.supersedes.None? || revision.supersedes.value in l.rows)
           && (forall v :: v in l.rows && v != revision.version ==> l.rows[v].supersedes != revision.supersedes)
           && (revision.version in l.rows ==> l.rows[revision.version].digest == revision)
        then reliable ==> !raised else raised
      ensures !raised ==> DiffersOnlyAt(old(store), store, revision.key)
      ensures !raised ==> LineageOf(store, revision.key) == WithDraft(old(LineageOf(store, revision.key)), revision)
    {
      raised := MayRaise();
      var key, version := revision.key, revision.version;
      var l := LineageOf(store, key);
      if raised || (l.owner.Some? && l.owner.value != revision.owner) {
        return true;
      }
      if revision.supersedes.Some? && revision.supersedes.value !in l.rows {
        return true;
      }
      if exists v :: v in l.rows && v != version && l.rows[v].supersedes == revision.supersedes {
        return true;
      }
      var rows := l.rows;
      if version !in rows {
        rows := rows[version := Row(revision, revision.supersedes, Draft)];
      }
      if rows[version].digest != revision {
        return true;
      }
      store := store[key := Lineage(Some(revision.owner), rows, l.head)];
    }

    /** `store.submit`. */
    method Submit(key: string, version: string) returns (raised: bool)
      modifies this
      ensures var l := old(LineageOf(store, key));
        if version in l.rows && l.rows[version].lifecycle == Draft then reliable ==> !raised else raised
      ensures !raised ==> DiffersOnlyAt(old(store), store, key)
      ensures !raised ==> LineageOf(store, key) == WithLifecycle(old(LineageOf(store, key)), version, InReview)
    {
      raised := MayRaise();
      var l := LineageOf(store, key);
      if raised || version !in l.rows || l.rows[version].lifecycle != Draft {
        return true;
      }
      store := store[key := WithLifecycle(l, version, InReview)];
    }

    /** `store.approve`: the revision becomes the head, if the head allows it. */
    method Approve(key: string, version: string) returns (raised: bool)
      modifies this
      ensures var l := old(LineageOf(store, key));
        if && version in l.rows && l.rows[version].lifecycle == InReview
           && (|| l.head.NoHead?
               || (l.head.At? && l.rows[version].supersedes == Some(l.head.version))
               || (l.head.Vacant? && BehindRetreat(l, l.rows[version].supersedes)))
        then reliable ==> !raised else raised
      ensures !raised ==> DiffersOnlyAt(old(store), store, key)
      ensures !raised ==>
        LineageOf(store, key) == WithLifecycle(old(LineageOf(store, key)), version, Approved).(head := At(version))
    {
      raised := MayRaise();
      var l := LineageOf(store, key);
      if raised || version !in l.rows || l.rows[version].lifecycle != InReview {
        return true;
      }
      if !Follows(l, l.rows[version]) {
        return true;
      }
      store := store[key := WithLifecycle(l, version, Approved).(head := At(version))];
    }

    /** `_publish`: draft, ingestion, submission, evaluation and approval, any of which may
        raise; they go through exactly when the store accepts the revision. */
    method Publish(revision: Revision) returns (raised: bool)
      modifies this
      ensures var l := old(LineageOf(store, revision.key));
        if Accepts(l, revision) then reliable ==> !raised else raised
      ensures !raised ==> DiffersOnlyAt(old(store), store, revision.key)
      ensures !raised ==> LineageOf(store, revision.key) == Headed(old(LineageOf(store, revision.key)), revision)
    {
      ghost var l := LineageOf(store, revision.key);
      AcceptedInSteps(l, revision);
      FollowsMeans(WithLifecycle(WithDraft(l, revision), revision.version, InReview), revision.version);
      hide Draftable, WithDraft, WithLifecycle, Follows, Accepts, Headed, LineageOf;
      raised := CreateDraft(revision);
      if raised {
        return;
      }
      raised := MayRaise();
      if raised {
        return;
      }
      raised := Submit(revision.key, revision.version);
      if raised {
        return;
      }
      raised := MayRaise();
      if raised {
        return;
      }
      raised := Approve(revision.key, revision.version);
    }

    /** `_version_numbers` and `max`: refused when a version is not release-numbered. */
    static method Maximum(l: Lineage) returns (raised: bool, m: nat)
      requires l.rows.Keys != {}
      ensures raised <==> exists v :: v in l.rows && !Decimal.IsNumeral(v)
      ensures !raised ==> IsMaximum(l, m)
    {
      var todo := l.rows.Keys;
      m := 0;
      while todo != {}
        invariant todo <= l.rows.Keys
        invariant forall v :: v in l.rows && v !in todo ==> Decimal.IsNumeral(v) && Decimal.Value(v) <= m
        invariant todo == l.rows.Keys || exists v :: v in l.rows && Decimal.IsNumeral(v) && Decimal.Value(v) == m
      {
        var v :| v in todo;
        if !Decimal.IsNumeral(v) {
          return true, m;
        }
        if todo == l.rows.Keys || Decimal.Value(v) > m {
          m := Decimal.Value(v);
        }
        todo := todo - {v};
      }
      raised := false;
    }

    /** One pack of the publication loop. */
    method LoadPack(p: Prepared, commit: string) returns (raised: bool, published: Option<Revision>)
      requires RevisionFor(p.pack, "", p.agents, p.profiles, "1", None).Some?
      modifies this
      ensures !raised ==> LoadedOne(old(store), store, p, published)
      ensures if Loadable(old(LineageOf(store, KeyOf(p.pack))), p) then reliable ==> !raised else raised
    {
      hide Accepts, Headed, KeyOf, Decimal.Print, Decimal.Value;
      var key := KeyOf(p.pack);
      var l := LineageOf(store, key);
      published := None;
      if l.rows == map[] {
        var baseline := RevisionFor(p.pack, commit, p.agents, p.profiles, "1", None).value;
        raised := Publish(baseline);
        if !raised {
          HeadedIsHead(l, p, baseline);
        }
        published := Some(baseline);
        return;
      }
      var refused, m := Maximum(l);
      if refused || (l.head.At? && l.head.version !in l.rows) {
        return true, None;
      }
      if l.head.At? {
        var headRow := l.rows[l.head.version];
        var candidate := RevisionFor(p.pack, commit, p.agents, p.profiles, l.head.version, headRow.supersedes).value;
        if candidate == headRow.digest {
          return false, None;
        }
      }
      raised, published := Supersede(p, commit, m);
    }

    /** The head, if any, is deprecated and the successor published. */
    method Supersede(p: Prepared, commit: string, m: nat) returns (raised: bool, published: Option<Revision>)
      requires RevisionFor(p.pack, "", p.agents, p.profiles, "1", None).Some?
      requires var l := LineageOf(store, KeyOf(p.pack));
        IsMaximum(l, m) && (l.head.At? ==> l.head.version in l.rows) && !HeadIs(l, p)
      modifies this
      ensures !raised ==> LoadedOne(old(store), store, p, published)
      ensures if Supersedable(old(LineageOf(store, KeyOf(p.pack))), p) then reliable ==> !raised else raised
    {
      hide Accepts, Headed, KeyOf, Decimal.Print, Decimal.Value;
      var key := KeyOf(p.pack);
      var l := LineageOf(store, key);
      var predecessor := Decimal.Print(m);
      if l.head.At? {
        predecessor := l.head.version;
        raised := Deprecate(key, predecessor, l.rows[predecessor].digest);
        if raised {
          return true, None;
        }
      }
      var successor := RevisionFor(p.pack, commit, p.agents, p.profiles, Decimal.Print(m + 1), Some(predecessor)).value;
      assert successor == Successor(l, p, m);
      MaximumIsUnique(l, m);
      raised := Publish(successor);
      published := Some(successor);
      if !raised {
        NextIsNew(l, m);
        HeadedIsHead(Cleared(l), p, successor);
        assert Succeeds(l, successor, m);
      }
    }

    /** The loop that binds every pack before anything is published. */
    static method PrepareLoop(packs: seq<Pack>, catalog: Catalog) returns (prepared: Option<seq<Prepared>>)
      ensures prepared == PrepareAll(packs, catalog)
    {
      hide HasKey, KeyOf, Prepare;
      var bound: seq<Prepared>, seen: set<string> := [], {};
      NoKeys();
      for k := 0 to |packs|
        invariant PrepareAll(packs[..k], catalog) == Some(bound)
        invariant forall key :: key in seen <==> HasKey(bound, key)
      {
        assert packs[..k + 1][..k] == packs[..k];
        if packs[k].name != EXCLUDED_NAME {
          var p := Prepare(packs[k], catalog);
          if p.None? || KeyOf(packs[k]) in seen {
            RefusalStays(packs, catalog, k + 1);
            return None;
          }
          ghost var before := bound;
          bound, seen := bound + [p.value], seen + {KeyOf(packs[k])};
          OneMoreKey(before, p.value);
          PreparedPack(packs[k], catalog);
        }
      }
      assert packs[..|packs|] == packs;
      prepared := Some(bound);
    }

    /** The head of the excluded key, if it has a revision, is deprecated. */
    method DeprecateExcluded() returns (raised: bool)
      modifies this
      ensures if ExcludedClears(old(store)) then reliable ==> !raised else raised
      ensures !raised ==> DiffersOnlyAt(old(store), store, EXCLUDED_KEY)
      ensures !raised ==> LineageOf(store, EXCLUDED_KEY) == Cleared(old(LineageOf(store, EXCLUDED_KEY)))
      ensures !raised && LineageOf(store, EXCLUDED_KEY) == old(LineageOf(store, EXCLUDED_KEY)) ==> store == old(store)
    {
      raised := false;
      var l := LineageOf(store, EXCLUDED_KEY);
      if l.head.At? && l.head.version in l.rows {
        raised := Deprecate(EXCLUDED_KEY, l.head.version, l.rows[l.head.version].digest);
      }
    }

    /** The publication loop, over packs bound under distinct keys. */
    method PublishLoop(prepared: seq<Prepared>, commit: string) returns (raised: bool, published: seq<Revision>)
      requires Publishable(prepared)
      modifies this
      ensures !raised ==> Progressed(old(store), store, prepared, published)
      ensures if AllLoadable(old(store), prepared) then reliable ==> !raised else raised
    {
      hide Loadable, Progressed, LoadedOne, KeyOf, RevisionFor;
      published, raised := [], false;
      NothingProgressed(store, prepared);
      for k := 0 to |prepared|
        invariant Progressed(old(store), store, prepared[..k], published)
        invariant AllLoadable(old(store), prepared[..k])
      {
        ghost var before := store;
        NextUntouched(old(store), before, prepared, k, published);
        var one: Option<Revision>;
        raised, one := LoadPack(prepared[k], commit);
        if raised {
          return;
        }
        ProgressOneMore(old(store), before, store, prepared, k, published, one);
        published := published + if one.Some? then [one.value] else [];
      }
      assert prepared[..|prepared|] == prepared;
    }

    /** `load` inside its connection: everything is bound before anything is written, and a
        raised error rolls every write back. It raises whenever the packs and the store do not
        let it go through, and when they do only for a call that failed. */
    method Load(packs: seq<Pack>, catalog: Catalog, commit: string) returns (raised: bool, published: seq<Revision>)
      modifies this
      ensures raised ==> store == old(store)
      ensures if Goes(old(store), packs, catalog) then reliable ==> !raised else raised
      ensures !raised ==> Delivered(old(store), store, PrepareAll(packs, catalog).value, published)
      ensures !raised ==> HistoryKept(old(store), store)
      ensures !raised ==>
        && PrepareAll(packs, catalog).Some?
        && PublishesChanged(old(store), store, PrepareAll(packs, catalog).value, published)
    {
      hide Loadable, Progressed, Delivered, HistoryKept, PrepareAll, Publishable, KeyOf, PublishesChanged;
      var start := store;
      var prepared := PrepareLoop(packs, catalog);
      raised, published := true, [];
      if packs != [] && prepared.Some? {
        raised := DeprecateExcluded();
        if !raised {
          PreparedIsPublishable(packs, catalog);
          ghost var cleared := store;
          SameLoadable(start, cleared, prepared.value);
          raised, published := PublishLoop(prepared.value, commit);
          if !raised {
            DeliveredAfterClearing(start, cleared, store, prepared.value, published);
            DeliveredKeepsHistory(start, store, prepared.value, published);
            DeliveredPublishes(start, store, prepared.value, published);
          }
        }
      }
      if raised {
        store := start;
      }
    }

    /** The same packs shipped again from another commit: nothing is published, and the store
        stays what the first load had made it. */
    method LoadAgain(packs: seq<Pack>, catalog: Catalog, commit: string, later: string)
      returns (raised: bool, again: seq<Revision>, ghost once: Store)
      modifies this
      ensures !raised ==> PrepareAll(packs, catalog).Some? && again == [] && store == once
      ensures !raised ==> AllConverged(once, PrepareAll(packs, catalog).value)
    {
      hide AllLoadable, HistoryKept, Extended, ElseUnchanged, StaleKeys, Converged, PrepareAll;
      var first: seq<Revision>;
      ghost var start := store;
      again := [];
      raised, first := Load(packs, catalog, commit);
      once := store;
      if !raised {
        raised, again := Load(packs, catalog, later);
        if !raised {
          SecondLoadIsSilent(start, once, store, PrepareAll(packs, catalog).value, first, again);
        }
      }
    }

    /** Any sequence of releases, from a database that has never seen one: every lineage is
        linear at every moment, none loses a revision, and each release extends exactly the
        lineages of what it publishes, by one version each. */
    method Releases(releases: seq<Release>)
      returns (ghost history: seq<Store>, ghost published: seq<seq<Revision>>)
      requires store == map[]
      modifies this
      ensures |history| == |releases| + 1 && history[|releases|] == store
      ensures |published| == |releases| && SoundHistory(history) && Released(history, published)
    {
      hide HistoryKept, SoundHistory, Delivered, AllLoadable, PrepareAll, Released, ReleasedOnce;
      history, published := [store], [];
      NothingReleased(store);
      for k := 0 to |releases|
        invariant |history| == k + 1 && history[k] == store && |published| == k
        invariant SoundHistory(history) && Released(history, published)
      {
        ghost var before := store;
        var raised, loaded := Load(releases[k].packs, releases[k].catalog, releases[k].commit);
        ghost var now := if raised then [] else loaded;
        NothingLoaded(before);
        if !raised {
          LastIsSound(history);
          DeliveredReleases(before, store, PrepareAll(releases[k].packs, releases[k].catalog).value, loaded);
        }
        HistoryExtends(history, store);
        ReleasedOneMore(history, published, store, now);
        history, published := history + [store], published + [now];
      }
    }
  }

  /** No predecessor, or one that has been deprecated or retired. */
  predicate BehindRetreat(l: Lineage, link: Option<string>) {
    link.Some? ==>
      && link.value in l.rows
      && (l.rows[link.value].lifecycle.Deprecated? || l.rows[link.value].lifecycle.Retired?)
  }

  lemma NoKeys()
    ensures forall key :: !HasKey([], key)
  {
  }

  lemma OneMoreKey(before: seq<Prepared>, p: Prepared)
    ensures forall key :: HasKey(before + [p], key) <==> HasKey(before, key) || key == KeyOf(p.pack)
  {
    hide KeyOf;
    var bound := before + [p];
    forall key | HasKey(before, key) || key == KeyOf(p.pack) ensures HasKey(bound, key) {
      if HasKey(before, key) {
        var j :| 0 <= j < |before| && KeyOf(before[j].pack) == key;
        assert KeyOf(bound[j].pack) == key;
      } else {
        assert KeyOf(bound[|bound| - 1].pack) == key;
      }
    }
  }

  lemma FollowsMeans(l: Lineage, version: string)
    requires version in l.rows
    ensures Follows(l, l.rows[version]) <==>
      || l.head.NoHead?
      || (l.head.At? && l.rows[version].supersedes == Some(l.head.version))
      || (l.head.Vacant? && BehindRetreat(l, l.rows[version].supersedes))
  {
  }

  datatype Release = Release(packs: seq<Pack>, catalog: Catalog, commit: string)

  /** Every store is sound and holds every revision of every earlier one. */
  ghost predicate SoundHistory(history: seq<Store>) {
    && (forall i :: 0 <= i < |history| ==> SoundStore(history[i]))
    && (forall i, j :: 0 <= i <= j < |history| ==> StoreGrows(history[i], history[j]))
  }

  /** Each release extends exactly the lineages of what it publishes: in a linear lineage of n
      versions, by version n + 1, which supersedes version n and becomes the head. */
  ghost predicate Released(history: seq<Store>, published: seq<seq<Revision>>) {
    && |history| == |published| + 1
    && forall i :: 0 <= i < |published| ==> ReleasedOnce(history[i], history[i + 1], published[i])
  }

  ghost predicate ReleasedOnce(before: Store, after: Store, published: seq<Revision>) {
    && (forall k :: 0 <= k < |published| ==>
          Succession(LineageOf(before, published[k].key), LineageOf(after, published[k].key), published[k]))
    && (forall key :: key !in Keys(published) ==>
          LineageOf(after, key) == LineageOf(before, key)
          || (key == EXCLUDED_KEY && LineageOf(after, key) == Cleared(LineageOf(before, key))))
  }

  /** One lineage and its next version. */
  predicate Succession(before: Lineage, after: Lineage, revision: Revision) {
    var n := |before.rows|;
    && revision.version == Decimal.Print(n + 1) && after.rows.Keys == before.rows.Keys + {revision.version}
    && revision.version !in before.rows && after.head == At(revision.version)
    && after.rows[revision.version] == Row(revision, if n == 0 then None else Some(Decimal.Print(n)), Approved)
  }

  lemma NothingReleased(store: Store)
    requires store == map[]
    ensures SoundHistory([store]) && Released([store], [])
  {
    assert Linear(NO_LINEAGE);
  }

  /** A load that raised. */
  lemma NothingLoaded(store: Store)
    ensures HistoryKept(store, store) && ReleasedOnce(store, store, [])
  {
    hide Linear;
  }

  /** What a load over a sound store delivers is the next version of each published lineage. */
  lemma DeliveredReleases(before: Store, after: Store, prepared: seq<Prepared>, published: seq<Revision>)
    requires SoundStore(before) && Delivered(before, after, prepared, published)
    ensures ReleasedOnce(before, after, published)
  {
    hide Advances, Linear, Cleared, Succession, AllConverged, StaleKeys;
    forall k | 0 <= k < |published|
      ensures Succession(LineageOf(before, published[k].key), LineageOf(after, published[k].key), published[k])
    {
      AdvanceIsSuccession(LineageOf(before, published[k].key), LineageOf(after, published[k].key), published[k]);
    }
  }

  lemma AdvanceIsSuccession(before: Lineage, after: Lineage, revision: Revision)
    requires Linear(before) && Advances(before, after, revision)
    ensures Succession(before, after, revision)
  {
    hide Linear, Accepts, Decimal.Print;
    NextOfLinear(before, after, revision);
    ClearedKeepsRows(before);
    assert Headed(Cleared(before), revision).rows.Keys == Cleared(before).rows.Keys + {revision.version};
  }

  lemma LastIsSound(history: seq<Store>)
    requires SoundHistory(history) && history != []
    ensures SoundStore(history[|history| - 1])
  {
  }

  lemma HistoryExtends(history: seq<Store>, next: Store)
    requires SoundHistory(history) && history != [] && HistoryKept(history[|history| - 1], next)
    ensures SoundHistory(history + [next])
  {
    hide SoundStore;
    var last := |history| - 1;
    assert SoundStore(history[last]);
    forall i | 0 <= i < |history| ensures StoreGrows(history[i], next) {
      assert StoreGrows(history[i], history[last]);
      GrowthTransitive(history[i], history[last], next);
    }
    assert StoreGrows(next, next);
  }

  lemma ReleasedOneMore(history: seq<Store>, published: seq<seq<Revision>>, next: Store, now: seq<Revision>)
    requires Released(history, published) && ReleasedOnce(history[|history| - 1], next, now)
    ensures Released(history + [next], published + [now])
  {
    hide ReleasedOnce;
  }

  lemma {:induction false} RefusalStays(packs: seq<Pack>, catalog: Catalog, k: nat)
    requires k <= |packs| && PrepareAll(packs[..k], catalog).None?
    ensures PrepareAll(packs, catalog).None?
    decreases |packs|
  {
    if k == |packs| {
      assert packs[..k] == packs;
    } else {
      assert packs[..|packs| - 1][..k] == packs[..k];
      RefusalStays(packs[..|packs| - 1], catalog, k);
    }
  }
}

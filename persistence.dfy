/**
  Persistence of the bindings (AnimalAbilities.java, lines 84-107). data.yml
  is seen through its `players` section only: a map from each child key to
  the string stored at `players.<key>.animal`, with "" where that string is
  absent. `UUID.toString` and `UUID.fromString` are the parameters `show`
  and `parse`; a key `fromString` rejects is `parse(k) == None`.
 */
module Persistence {
  import opened Common
  import opened Text

  /** The `players` section of data.yml. */
  type Section = map<string, string>

  /** `fromString` reads back what `toString` wrote. */
  ghost predicate Codec<U(!new)>(show: U -> string, parse: string -> Option<U>) {
    forall u: U :: parse(show(u)) == Some(u)
  }

  /** Distinct players are written under distinct keys. */
  ghost predicate Injective<U(!new)>(show: U -> string) {
    forall u, v: U :: show(u) == show(v) ==> u == v
  }

  lemma CodecInjective<U(!new)>(show: U -> string, parse: string -> Option<U>)
    requires Codec(show, parse)
    ensures Injective(show)
  {
    forall u: U, v: U | show(u) == show(v)
      ensures u == v
    {
      assert Some(u) == parse(show(u)) == parse(show(v)) == Some(v);
    }
  }

  /**
    Lines 96-101: `saveChoices` clears the section and writes every binding
    under its player's key.
   */
  function Saved<U(==,!new)>(chosen: map<U, string>, show: U -> string): (r: Section)
    requires Injective(show)
    ensures r.Keys == set u | u in chosen :: show(u)
    ensures forall u :: u in chosen ==> r[show(u)] == chosen[u]
  {
    map u | u in chosen :: show(u) := chosen[u]
  }

  /** `section` holds exactly the bindings of `chosen`, each under its player's key. */
  ghost predicate SavedAs<U(!new)>(section: Section, chosen: map<U, string>, show: U -> string) {
    && (forall u :: u in chosen ==> show(u) in section && section[show(u)] == chosen[u])
    && (forall k :: k in section ==> exists u :: u in chosen && show(u) == k)
  }

  /** The loop body of `saveChoices` writes one more binding. */
  lemma SavedAsInsert<U(!new)>(section: Section, chosen: map<U, string>, u: U, animal: string, show: U -> string)
    requires Injective(show) && SavedAs(section, chosen, show) && u !in chosen
    ensures SavedAs(section[show(u) := animal], chosen[u := animal], show)
  {
    var section' := section[show(u) := animal];
    var chosen' := chosen[u := animal];
    forall w | w in chosen'
      ensures show(w) in section' && section'[show(w)] == chosen'[w]
    {
      if w != u {
        assert show(w) != show(u);
      }
    }
    forall k | k in section'
      ensures exists w :: w in chosen' && show(w) == k
    {
      if k != show(u) {
        var w :| w in chosen && show(w) == k;
        assert w in chosen';
      } else {
        assert u in chosen';
      }
    }
  }

  /** For an injective `show` there is one such section: the saved one. */
  lemma SavedAsSaved<U(!new)>(section: Section, chosen: map<U, string>, show: U -> string)
    requires Injective(show) && SavedAs(section, chosen, show)
    ensures section == Saved(chosen, show)
  {
    var saved := Saved(chosen, show);
    forall k | k in section
      ensures k in saved && section[k] == saved[k]
    {
      var u :| u in chosen && show(u) == k;
    }
  }

  /** The section restricted to the keys `loadSavedChoices` has visited. */
  function Restrict(section: Section, keys: set<string>): (r: Section)
    ensures r.Keys == section.Keys * keys
    ensures forall k :: k in r ==> r[k] == section[k]
  {
    map k | k in section && k in keys :: section[k]
  }

  /**
    Lines 88-92: one key of the section. A key that does not parse, or
    whose animal is empty, leaves `chosen` as it was; otherwise the player
    is bound to the lower-cased animal, replacing any earlier binding.
   */
  function LoadKey<U(==)>(chosen: map<U, string>, key: string, animal: string, parse: string -> Option<U>): (r: map<U, string>)
    ensures parse(key).None? || animal == "" ==> r == chosen
    ensures parse(key).Some? && animal != "" ==> r == chosen[parse(key).value := ToLower(animal)]
  {
    match parse(key)
    case None => chosen
    case Some(u) => if animal != "" then chosen[u := ToLower(animal)] else chosen
  }

  /** Key `k` of the section binds player `u` when it is loaded. */
  ghost predicate Source<U(!new)>(section: Section, parse: string -> Option<U>, u: U, k: string) {
    k in section && section[k] != "" && parse(k) == Some(u)
  }

  /** The section names `u` under some key with a non-empty animal. */
  ghost predicate Names<U(!new)>(section: Section, parse: string -> Option<U>, u: U) {
    exists k :: Source(section, parse, u, k)
  }

  /**
    What `loadSavedChoices` may leave in `r` when it starts from `base`:
    the keys are iterated in an order the section does not fix, so when two
    keys parse to the same player either animal may win. Every player the
    section names is bound to the lower-cased animal of one of its keys;
    every other player keeps its binding.
   */
  ghost predicate LoadResult<U(!new)>(base: map<U, string>, section: Section, parse: string -> Option<U>, r: map<U, string>) {
    && (forall u :: u in r <==> u in base || Names(section, parse, u))
    && (forall u :: u in r && !Names(section, parse, u) ==> r[u] == base[u])
    && (forall u :: Names(section, parse, u) ==>
          exists k :: Source(section, parse, u, k) && u in r && r[u] == ToLower(section[k]))
  }

  // ---------------------------------------------------------------------

  /** Visiting nothing loads nothing. */
  lemma LoadStart<U(!new)>(base: map<U, string>, section: Section, parse: string -> Option<U>)
    ensures LoadResult(base, Restrict(section, {}), parse, base)
  {
    assert Restrict(section, {}) == map[];
  }

  /** Visiting one more key adds at most the player that key names. */
  lemma SourceStep<U(!new)>(section: Section, parse: string -> Option<U>, done: set<string>, key: string, u: U, k: string)
    requires key in section
    ensures Source(Restrict(section, done + {key}), parse, u, k)
        <==> Source(Restrict(section, done), parse, u, k) || (k == key && Source(section, parse, u, key))
  {
  }

  /** The loop body of `loadSavedChoices` extends a partial load by one key. */
  lemma LoadStep<U(!new)>(base: map<U, string>, section: Section, parse: string -> Option<U>,
                          done: set<string>, key: string, r: map<U, string>)
    requires key in section && key !in done
    requires LoadResult(base, Restrict(section, done), parse, r)
    ensures LoadResult(base, Restrict(section, done + {key}), parse, LoadKey(r, key, section[key], parse))
  {
    var before := Restrict(section, done);
    var after := Restrict(section, done + {key});
    var r' := LoadKey(r, key, section[key], parse);
    forall v, k
      ensures Source(after, parse, v, k) <==> Source(before, parse, v, k) || (k == key && Source(section, parse, v, key))
    {
      SourceStep(section, parse, done, key, v, k);
    }
    forall v | Names(after, parse, v)
      ensures exists k :: Source(after, parse, v, k) && v in r' && r'[v] == ToLower(after[k])
    {
      if Source(section, parse, v, key) {
        assert Source(after, parse, v, key) && v in r' && r'[v] == ToLower(after[key]);
      } else {
        var k :| Source(after, parse, v, k);
        assert Names(before, parse, v);
        var k' :| Source(before, parse, v, k') && v in r && r[v] == ToLower(before[k']);
        assert Source(after, parse, v, k') && after[k'] == before[k'];
      }
    }
    forall v
      ensures Names(after, parse, v) <==> Names(before, parse, v) || Source(section, parse, v, key)
    {
      if Names(after, parse, v) && !Source(section, parse, v, key) {
        var k :| Source(after, parse, v, k);
        assert Source(before, parse, v, k);
      }
      if Names(before, parse, v) {
        var k :| Source(before, parse, v, k);
        assert Source(after, parse, v, k);
      }
      if Source(section, parse, v, key) {
        assert Source(after, parse, v, key);
      }
    }
    forall v
      ensures v in r' <==> v in r || Source(section, parse, v, key)
      ensures v in r' && !Source(section, parse, v, key) ==> r'[v] == r[v]
    {
    }
  }

  /** Every binding a load adds is non-empty and lower case. */
  lemma LoadedLowerCase<U(!new)>(base: map<U, string>, section: Section, parse: string -> Option<U>, r: map<U, string>)
    requires LoadResult(base, section, parse, r)
    ensures forall u :: Names(section, parse, u) ==> u in r && r[u] != "" && IsLowerCase(r[u])
  {
    forall u | Names(section, parse, u)
      ensures u in r && r[u] != "" && IsLowerCase(r[u])
    {
      var k :| Source(section, parse, u, k) && u in r && r[u] == ToLower(section[k]);
      ToLowerIsLowerCase(section[k]);
    }
  }

  /** When no two keys name the same player, the iteration order does not matter. */
  lemma LoadDeterministic<U(!new)>(base: map<U, string>, section: Section, parse: string -> Option<U>,
                                   r1: map<U, string>, r2: map<U, string>)
    requires forall k1, k2 :: k1 in section && k2 in section && parse(k1).Some? && parse(k1) == parse(k2) ==> k1 == k2
    requires LoadResult(base, section, parse, r1) && LoadResult(base, section, parse, r2)
    ensures r1 == r2
  {
    forall u | u in r1
      ensures u in r2 && r1[u] == r2[u]
    {
      if Names(section, parse, u) {
        var k1 :| Source(section, parse, u, k1) && u in r1 && r1[u] == ToLower(section[k1]);
        var k2 :| Source(section, parse, u, k2) && u in r2 && r2[u] == ToLower(section[k2]);
        assert k1 == k2;
      }
    }
  }

  /** In a saved section, the only key naming a player is that player's own. */
  lemma SavedSource<U(!new)>(chosen: map<U, string>, show: U -> string, parse: string -> Option<U>, u: U, k: string)
    requires Codec(show, parse) && Injective(show)
    ensures Source(Saved(chosen, show), parse, u, k) <==> u in chosen && chosen[u] != "" && k == show(u)
  {
    var section := Saved(chosen, show);
    if Source(section, parse, u, k) {
      var v :| v in chosen && show(v) == k;
      assert parse(show(v)) == Some(v);
    }
    if u in chosen && k == show(u) {
      assert parse(show(u)) == Some(u);
    }
  }

  /** One player of the round trip: the load binds `u` exactly to its saved animal, lower-cased. */
  lemma SaveLoadAt<U(!new)>(chosen: map<U, string>, show: U -> string, parse: string -> Option<U>, r: map<U, string>, u: U)
    requires Codec(show, parse) && Injective(show)
    requires LoadResult(map[], Saved(chosen, show), parse, r)
    ensures u in r <==> u in chosen && chosen[u] != ""
    ensures u in r ==> r[u] == ToLower(chosen[u])
  {
    var section := Saved(chosen, show);
    SavedSource(chosen, show, parse, u, show(u));
    if u in r {
      assert Names(section, parse, u);
      var k :| Source(section, parse, u, k) && r[u] == ToLower(section[k]);
      SavedSource(chosen, show, parse, u, k);
    }
  }

  /** A map that agrees pointwise with the lower-cased non-empty bindings is that map. */
  lemma LoweredBindings<U>(chosen: map<U, string>, r: map<U, string>)
    requires forall u :: u in r <==> u in chosen && chosen[u] != ""
    requires forall u :: u in r ==> r[u] == ToLower(chosen[u])
    ensures r == map u | u in chosen && chosen[u] != "" :: ToLower(chosen[u])
  {
  }

  /**
    Saving then loading into an empty map gives back every binding with a
    non-empty animal, lower-cased.
   */
  lemma SaveLoadRoundTrip<U(!new)>(chosen: map<U, string>, show: U -> string, parse: string -> Option<U>, r: map<U, string>)
    requires Codec(show, parse) && Injective(show)
    requires LoadResult(map[], Saved(chosen, show), parse, r)
    ensures r == map u | u in chosen && chosen[u] != "" :: ToLower(chosen[u])
  {
    forall u
      ensures u in r <==> u in chosen && chosen[u] != ""
      ensures u in r ==> r[u] == ToLower(chosen[u])
    {
      SaveLoadAt(chosen, show, parse, r, u);
    }
    LoweredBindings(chosen, r);
  }

  /** Bindings that are already non-empty and lower case survive save and load unchanged. */
  lemma SaveLoadIdentity<U(!new)>(chosen: map<U, string>, show: U -> string, parse: string -> Option<U>, r: map<U, string>)
    requires Codec(show, parse) && Injective(show)
    requires forall u :: u in chosen ==> chosen[u] != "" && IsLowerCase(chosen[u])
    requires LoadResult(map[], Saved(chosen, show), parse, r)
    ensures r == chosen
  {
    SaveLoadRoundTrip(chosen, show, parse, r);
    forall u | u in chosen
      ensures ToLower(chosen[u]) == chosen[u]
    {
      ToLowerOfLowerCase(chosen[u]);
    }
  }
}

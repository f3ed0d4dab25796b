/**
  The plugin object (AnimalAbilities.java): the `chosen` and
  `pendingConfirm` maps, the `players` section of data.yml, and the
  handlers that change them. Each handler is proved to do what the step
  functions of module Binding and module Persistence describe, so the
  properties proved there hold of the object.
 */
module Plugin {
  import opened Common
  import opened Text
  import opened Keys
  import opened Layout
  import opened Binding
  import opened Persistence

  class AnimalAbilities<U(==,!new)> {
    /** Line 48: each player's locked animal id. */
    var chosen: map<U, string>
    /** The selection awaiting the final confirmation (lines 346, 377, 386). */
    var pendingConfirm: map<U, string>
    /** The `players` section of data.yml as last loaded or saved. */
    var players: Section

    /** `isValidAnimalId`, whose body is not part of this model. */
    const isValidAnimalId: string -> bool
    /** `UUID.toString` and `UUID.fromString`. */
    const show: U -> string
    const parse: string -> Option<U>

    ghost predicate Valid()
      reads this
    {
      && Codec(show, parse)
      && Injective(show)
      && PendingValid(State(chosen, pendingConfirm), isValidAnimalId)
    }

    /** A freshly enabled plugin over the data file's `players` section (lines 61-70). */
    constructor (valid: string -> bool, show: U -> string, parse: string -> Option<U>, players: Section)
      requires Codec(show, parse)
      ensures Valid()
      ensures chosen == map[] && pendingConfirm == map[] && this.players == players
      ensures isValidAnimalId == valid && this.show == show && this.parse == parse
    {
      chosen := map[];
      pendingConfirm := map[];
      this.players := players;
      isValidAnimalId := valid;
      this.show := show;
      this.parse := parse;
      new;
      CodecInjective(show, parse);
    }

    /**
      Lines 84-94: every key of the section, in an order the section does
      not fix, through `LoadKey`. A missing section is an empty one.
     */
    method LoadSavedChoices()
      requires Valid()
      modifies this`chosen
      ensures Valid()
      ensures LoadResult(old(chosen), players, parse, chosen)
    {
      var loaded := LoadSection(chosen, players, parse);
      chosen := loaded;
    }

    /** Lines 96-101: the section is cleared and every binding written back. */
    method SaveChoices()
      requires Valid()
      modifies this`players
      ensures Valid()
      ensures players == Saved(chosen, show)
    {
      var section := SaveSection(chosen, show);
      SavedAsSaved(section, chosen, show);
      players := section;
    }

    /** Lines 191-236: refuse a player who has chosen, else lay out the screen. */
    method OpenChooseGui(p: U) returns (out: Outcome)
      ensures out == OpenChoose(State(chosen, pendingConfirm), p)
    {
      if p in chosen {
        return Refused(AlreadyChose);
      }
      var screen := FillChooseScreen(Animals);
      return ChooseOpened(screen);
    }

    /**
      Lines 285-402: `onInventoryClick`. The new maps and the outcome are
      those of `OnClick`; a locked choice is saved at once (line 401).
     */
    method OnInventoryClick(e: Click<U>) returns (out: Outcome)
      requires Valid()
      modifies this`chosen, this`pendingConfirm, this`players
      ensures Valid()
      ensures (State(chosen, pendingConfirm), out) == OnClick(old(State(chosen, pendingConfirm)), e, isValidAnimalId)
      ensures out.Locked? ==> players == Saved(chosen, show)
      ensures !out.Locked? ==> players == old(players)
    {
      if e.title.None? {
        return Untouched;
      }
      var title := e.title.value;
      if title != ChooseTitle && title != ConfirmTitle {
        return Untouched;
      }
      if e.clicker.None? || e.item.None? {
        return Ignored;
      }
      var p := e.clicker.value;
      var display := e.item.value;
      var key := Key(display);
      if title == ChooseTitle {
        if EqualsIgnoreCase(display, "Confirm") {
          var chosenId := FindConfirmTarget(e.top, key, isValidAnimalId);
          if chosenId.None? {
            return Refused(NoAnimalSelected);
          }
          if p in chosen {
            return Refused(AlreadyChose);
          }
          pendingConfirm := pendingConfirm[p := chosenId.value];
          return ConfirmOpened(chosenId.value);
        } else if EqualsIgnoreCase(display, "Cancel") {
          return MenuClosed;
        }
        var candidate := Candidate(key, isValidAnimalId);
        if !isValidAnimalId(candidate) {
          return Ignored;
        }
        pendingConfirm := pendingConfirm[p := candidate];
        return ConfirmOpened(candidate);
      }
      if !EqualsIgnoreCase(display, "Confirm") {
        return NotModelled;
      }
      if p !in pendingConfirm {
        return Refused(NothingPending);
      }
      var pending := pendingConfirm[p];
      pendingConfirm := pendingConfirm - {p};
      if p in chosen {
        return Refused(AlreadyChose);
      }
      chosen := chosen[p := pending];
      SaveChoices();
      return Locked(pending);
    }
  }

  /** The loop of `loadSavedChoices` (lines 87-93) over the keys of `section`. */
  method LoadSection<U(==,!new)>(base: map<U, string>, section: Section, parse: string -> Option<U>)
    returns (loaded: map<U, string>)
    ensures LoadResult(base, section, parse, loaded)
  {
    loaded := base;
    var keys := section.Keys;
    ghost var done: set<string> := {};
    LoadStart(base, section, parse);
    while keys != {}
      invariant forall k :: k in section <==> k in keys || k in done
      invariant forall k :: k in keys ==> k !in done
      invariant LoadResult(base, Restrict(section, done), parse, loaded)
      decreases |keys|
    {
      var key :| key in keys;
      LoadStep(base, section, parse, done, key, loaded);
      loaded := LoadKey(loaded, key, section[key], parse);
      keys := keys - {key};
      done := done + {key};
    }
    assert Restrict(section, done) == section;
  }

  /** The loop of `saveChoices` (lines 98-100) over the entries of `chosen`. */
  method SaveSection<U(==,!new)>(chosen: map<U, string>, show: U -> string) returns (section: Section)
    requires Injective(show)
    ensures SavedAs(section, chosen, show)
  {
    section := map[];
    var rest := chosen.Keys;
    ghost var done: map<U, string> := map[];
    while rest != {}
      invariant forall u :: u in chosen <==> u in rest || u in done
      invariant forall u :: u in rest ==> u !in done
      invariant forall u :: u in done ==> done[u] == chosen[u]
      invariant SavedAs(section, done, show)
      decreases |rest|
    {
      var u :| u in rest;
      SavedAsInsert(section, done, u, chosen[u], show);
      section := section[show(u) := chosen[u]];
      done := done[u := chosen[u]];
      rest := rest - {u};
    }
    assert done == chosen;
  }
}

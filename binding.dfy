/**
  The choose/confirm flow that binds a player to an animal
  (AnimalAbilities.java, lines 191-195 and 284-402), as pure transitions
  over the two maps `chosen` and `pendingConfirm`. `valid` stands for
  `isValidAnimalId`, whose body is not part of this model.
 */
module Binding {
  import opened Common
  import opened Text
  import opened Keys
  import opened Layout

  /** The plugin's per-player binding state. */
  datatype State<U> = State(chosen: map<U, string>, pending: map<U, string>)

  /** Lines 55-56: the two screen titles, each after the `ChatColor.DARK_GREEN` code (U+00A7, then "2"). */
  const ChooseTitle := "\U{A7}2Choose Your Animal"
  const ConfirmTitle := "\U{A7}2Confirm Your Choice"

  const AlreadyChose := "You already chose an animal. Ask an OP to reset it."
  const NoAnimalSelected := "No animal selected to confirm."
  const NothingPending := "Nothing pending to confirm."

  /** What a handler did, besides changing the state. Sounds are left out. */
  datatype Outcome =
    | Untouched                    // not one of the plugin's screens: the event is left alone
    | Ignored                      // the event is cancelled and nothing else happens
    | Refused(message: string)     // an error message is sent
    | ChooseOpened(screen: Inventory)
    | MenuClosed                   // Cancel on the choose screen
    | ConfirmOpened(animal: string)
    | Locked(animal: string)       // the choice is written to `chosen`
    | NotModelled                  // a final-screen button other than Confirm

  /**
    An inventory click: the view's title (None when the view or title is
    null), the clicker (None when not a player), the clicked item's display
    name (None for an empty slot or an item without meta) and the view's top
    inventory.
   */
  datatype Click<U> = Click(title: Option<string>, clicker: Option<U>, item: Option<string>, top: Inventory)

  /** Every pending selection is a valid id. */
  predicate PendingValid<U>(s: State<U>, valid: string -> bool) {
    forall q :: q in s.pending ==> valid(s.pending[q])
  }

  /** `after` keeps every entry of `before`: no binding is dropped or overwritten. */
  predicate Extends<U>(before: map<U, string>, after: map<U, string>) {
    forall q :: q in before ==> q in after && after[q] == before[q]
  }

  /** Lines 191-236: the guard of `openChooseGui`. */
  function OpenChoose<U>(s: State<U>, p: U): (r: Outcome)
    ensures r.ChooseOpened? <==> p !in s.chosen
    ensures !r.ChooseOpened? ==> r == Refused(AlreadyChose)
  {
    if p in s.chosen then Refused(AlreadyChose) else ChooseOpened(ChooseScreen(Animals))
  }

  /** Lines 304-381: a click on the choose screen. */
  function ChooseClick<U>(s: State<U>, p: U, display: string, top: Inventory, valid: string -> bool): (r: (State<U>, Outcome))
    ensures r.0.chosen == s.chosen
    ensures r.1.ConfirmOpened? ==> valid(r.1.animal) && r.0.pending == s.pending[p := r.1.animal]
    ensures !r.1.ConfirmOpened? ==> r.0 == s
    ensures EqualsIgnoreCase(display, "Confirm") ==>
              (r.1.ConfirmOpened? <==> ConfirmTarget(top, Key(display), valid).Some? && p !in s.chosen)
              && (r.1.ConfirmOpened? ==> r.1.animal == ConfirmTarget(top, Key(display), valid).value)
    ensures EqualsIgnoreCase(display, "Confirm") && ConfirmTarget(top, Key(display), valid).None? ==>
              r.1 == Refused(NoAnimalSelected)
    ensures EqualsIgnoreCase(display, "Confirm") && ConfirmTarget(top, Key(display), valid).Some? && p in s.chosen ==>
              r.1 == Refused(AlreadyChose)
    ensures !EqualsIgnoreCase(display, "Confirm") && EqualsIgnoreCase(display, "Cancel") ==> r.1 == MenuClosed
    ensures !EqualsIgnoreCase(display, "Confirm") && !EqualsIgnoreCase(display, "Cancel") ==>
              (r.1.ConfirmOpened? <==> valid(Candidate(Key(display), valid)))
              && (r.1.ConfirmOpened? ==> r.1.animal == Candidate(Key(display), valid))
              && (!r.1.ConfirmOpened? ==> r.1 == Ignored)
  {
    var key := Key(display);
    if EqualsIgnoreCase(display, "Confirm") then
      match ConfirmTarget(top, key, valid)
      case None => (s, Refused(NoAnimalSelected))
      case Some(id) =>
        if p in s.chosen then (s, Refused(AlreadyChose))
        else (s.(pending := s.pending[p := id]), ConfirmOpened(id))
    else if EqualsIgnoreCase(display, "Cancel") then (s, MenuClosed)
    else
      var candidate := Candidate(key, valid);
      if !valid(candidate) then (s, Ignored)
      else (s.(pending := s.pending[p := candidate]), ConfirmOpened(candidate))
  }

  /**
    Lines 384-402: a click on the final confirmation screen. Confirm
    consumes the pending selection in every outcome and binds it only when
    the player has no animal yet.
   */
  function ConfirmClick<U>(s: State<U>, p: U, display: string): (r: (State<U>, Outcome))
    ensures EqualsIgnoreCase(display, "Confirm") ==> r.0.pending == s.pending - {p}
    ensures EqualsIgnoreCase(display, "Confirm") && p !in s.pending ==>
              r.0.chosen == s.chosen && r.1 == Refused(NothingPending)
    ensures r.1.Locked? <==> EqualsIgnoreCase(display, "Confirm") && p in s.pending && p !in s.chosen
    ensures r.1.Locked? ==> r.1.animal == s.pending[p] && r.0.chosen == s.chosen[p := s.pending[p]]
    ensures EqualsIgnoreCase(display, "Confirm") && p in s.pending && p in s.chosen ==> r.1 == Refused(AlreadyChose)
    ensures !r.1.Locked? ==> r.0.chosen == s.chosen
    ensures !EqualsIgnoreCase(display, "Confirm") ==> r.0 == s
  {
    if EqualsIgnoreCase(display, "Confirm") then
      if p !in s.pending then (s, Refused(NothingPending))
      else
        var pending := s.pending[p];
        var s' := s.(pending := s.pending - {p});
        if p in s.chosen then (s', Refused(AlreadyChose))
        else (s'.(chosen := s.chosen[p := pending]), Locked(pending))
    else (s, NotModelled)
  }

  /** Lines 285-402: `onInventoryClick`. */
  function OnClick<U>(s: State<U>, e: Click<U>, valid: string -> bool): (r: (State<U>, Outcome))
    ensures r.1.Untouched? <==> e.title.None? || (e.title.value != ChooseTitle && e.title.value != ConfirmTitle)
    ensures Extends(s.chosen, r.0.chosen)
    ensures r.0.chosen.Keys <= s.chosen.Keys + (if e.clicker.Some? then {e.clicker.value} else {})
    ensures r.1.Locked? <==> r.0.chosen != s.chosen
    ensures r.1.Locked? ==> e.clicker.Some? && e.clicker.value !in s.chosen
                            && e.clicker.value in s.pending && r.1.animal == s.pending[e.clicker.value]
    ensures PendingValid(s, valid) ==> PendingValid(r.0, valid)
    ensures r.1.Untouched? || r.1.Ignored? ==> r.0 == s
    ensures forall q :: q in s.pending && (e.clicker.None? || q != e.clicker.value) ==>
              q in r.0.pending && r.0.pending[q] == s.pending[q]
    ensures forall q :: q in r.0.pending && (e.clicker.None? || q != e.clicker.value) ==> q in s.pending
  {
    if e.title.None? then (s, Untouched)
    else if e.title.value != ChooseTitle && e.title.value != ConfirmTitle then (s, Untouched)
    else if e.clicker.None? || e.item.None? then (s, Ignored)
    else if e.title.value == ChooseTitle then ChooseClick(s, e.clicker.value, e.item.value, e.top, valid)
    else ConfirmClick(s, e.clicker.value, e.item.value)
  }

  /** The state after a sequence of clicks. */
  function Run<U>(s: State<U>, clicks: seq<Click<U>>, valid: string -> bool): State<U>
    decreases |clicks|
  {
    if clicks == [] then s else Run(OnClick(s, clicks[0], valid).0, clicks[1..], valid)
  }

  // ---------------------------------------------------------------------

  /**
    The binding is write-once over any run of clicks: no existing choice is
    removed or changed, and when every pending selection starts valid, every
    new choice is a valid id.
   */
  lemma {:induction false} RunWriteOnce<U>(s: State<U>, clicks: seq<Click<U>>, valid: string -> bool)
    requires PendingValid(s, valid)
    ensures Extends(s.chosen, Run(s, clicks, valid).chosen)
    ensures forall q :: q in Run(s, clicks, valid).chosen && q !in s.chosen ==> valid(Run(s, clicks, valid).chosen[q])
    ensures PendingValid(Run(s, clicks, valid), valid)
    decreases |clicks|
  {
    if clicks != [] {
      var s1 := OnClick(s, clicks[0], valid).0;
      RunWriteOnce(s1, clicks[1..], valid);
      var r := Run(s, clicks, valid);
      assert r == Run(s1, clicks[1..], valid);
      forall q | q in r.chosen && q !in s.chosen ensures valid(r.chosen[q]) {
        if q in s1.chosen {
          assert r.chosen[q] == s1.chosen[q];
        }
      }
    }
  }

  /**
    Whatever the key normalisation makes of an Info paper, it keeps the
    "info" suffix; when no valid id ends in "info" (true of the ten ids),
    clicking an Info paper on the choose screen changes nothing.
   */
  lemma InfoPaperIgnored<U>(s: State<U>, p: U, title: string, top: Inventory, valid: string -> bool)
    requires PlainName(title)
    requires forall id :: valid(id) ==> !EndsWith(id, "info")
    ensures ChooseClick(s, p, title + " Info", top, valid) == (s, Ignored)
  {
    var d := title + " Info";
    InfoPaperCandidate(title, valid);
    var c := Key(title) + "info";
    assert c[|c| - 4..] == "info";
    assert !valid(c);
    assert !EqualsIgnoreCase(d, "Confirm") by {
      KeyOfInfoPaper(title);
      if EqualsIgnoreCase(d, "Confirm") {
        ConfirmButtonKey(d);
        assert false;
      }
    }
    assert !EqualsIgnoreCase(d, "Cancel") by {
      assert ToLower(d)[|d| - 1] == 'o';
    }
  }

  /**
    The intended path: selecting an item whose candidate is a valid id and
    then pressing Confirm on the final screen binds exactly that id and
    leaves nothing pending.
   */
  lemma SelectThenConfirm<U>(s: State<U>, p: U, display: string, top: Inventory, conf: Inventory, valid: string -> bool)
    requires p !in s.chosen
    requires !EqualsIgnoreCase(display, "Confirm") && !EqualsIgnoreCase(display, "Cancel")
    requires valid(Candidate(Key(display), valid))
    ensures var r := Run(s, [Click(Some(ChooseTitle), Some(p), Some(display), top),
                             Click(Some(ConfirmTitle), Some(p), Some("Confirm"), conf)], valid);
            r.chosen == s.chosen[p := Candidate(Key(display), valid)] && p !in r.pending
  {
    var c1 := Click(Some(ChooseTitle), Some(p), Some(display), top);
    var c2 := Click(Some(ConfirmTitle), Some(p), Some("Confirm"), conf);
    var clicks := [c1, c2];
    var s1 := OnClick(s, c1, valid).0;
    var s2 := OnClick(s1, c2, valid).0;
    TitlesDiffer();
    var id := Candidate(Key(display), valid);
    assert s1 == s.(pending := s.pending[p := id]) by {
      assert OnClick(s, c1, valid) == ChooseClick(s, p, display, top, valid);
    }
    assert EqualsIgnoreCase("Confirm", "Confirm");
    assert s2 == State(s.chosen[p := id], s1.pending - {p}) by {
      assert OnClick(s1, c2, valid) == ConfirmClick(s1, p, "Confirm");
    }
    assert clicks[1..] == [c2];
    assert Run(s, clicks, valid) == Run(s1, [c2], valid) == s2;
  }

  lemma TitlesDiffer()
    ensures ChooseTitle != ConfirmTitle
  {
    assert ChooseTitle[3] != ConfirmTitle[3];
  }

  /** Clicking Wolf's icon and then Confirm binds "wolf". */
  lemma WolfFlow<U>(s: State<U>, p: U, top: Inventory, conf: Inventory)
    requires p !in s.chosen
    ensures Run(s, [Click(Some(ChooseTitle), Some(p), Some("Wolf!"), top),
                    Click(Some(ConfirmTitle), Some(p), Some("Confirm"), conf)], IsAnimalId).chosen
         == s.chosen[p := "wolf"]
  {
    WolfIcon();
    SelectThenConfirm(s, p, "Wolf!", top, conf, IsAnimalId);
  }

  lemma WolfIcon()
    ensures Candidate(Key("Wolf!"), IsAnimalId) == "wolf"
    ensures !EqualsIgnoreCase("Wolf!", "Confirm") && !EqualsIgnoreCase("Wolf!", "Cancel")
  {
    WolfKey();
    WolfPlain();
    CandidateIsKey("Wolf!", IsAnimalId);
    WolfNotButton();
  }

  lemma WolfKey()
    ensures Key("Wolf!") == "wolf"
  {
    WolfLower();
    assert "Wolf" + "!" == "Wolf!";
    KeyOfTitle("Wolf", "wolf");
  }

  lemma WolfLower()
    ensures ToLower("Wolf") == "wolf"
  {
    var l := ToLower("Wolf");
    assert l[0] == 'w' && l[1] == 'o' && l[2] == 'l' && l[3] == 'f';
  }

  lemma WolfPlain()
    ensures PlainName("Wolf!")
  {
  }

  lemma WolfNotButton()
    ensures !EqualsIgnoreCase("Wolf!", "Confirm") && !EqualsIgnoreCase("Wolf!", "Cancel")
  {
    assert |ToLower("Wolf!")| == 5;
  }

  /** On the real plugin, clicking any Info paper of the choose screen selects nothing. */
  lemma InfoPaperNeverSelects<U>(s: State<U>, p: U, title: string, top: Inventory)
    requires PlainName(title)
    ensures ChooseClick(s, p, title + " Info", top, IsAnimalId) == (s, Ignored)
  {
    assert forall id :: IsAnimalId(id) ==> !EndsWith(id, "info");
    InfoPaperIgnored(s, p, title, top, IsAnimalId);
  }
}

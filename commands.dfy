/**
  Command handling (AnimalAbilities.java, lines 110-188): the dispatch of
  `onCommand` and the authorisation table of `/resetanimal`. The host's
  `getPlayerExact` is the parameter `lookup`; what `resetPlayer`,
  `openChooseGui` and `useAbility` then do is outside this module.
 */
module Commands {
  import opened Common
  import opened Text

  /**
    Who ran the command: a player (with their operator flag), or any sender
    that is not a player, such as the server console.
   */
  datatype Sender<U> = Console | Player(id: U, op: bool)

  /** The sender may reset other players' animals (lines 143-147, 159-166). */
  predicate MayResetOthers<U>(sender: Sender<U>) {
    sender.Console? || sender.op
  }

  /** Lines 175-177: the one-word ability commands. */
  const Abilities: seq<string> :=
    ["pounce", "focus", "hover", "escape", "harden", "gallop", "soften", "sting", "glide", "discovery"]

  const UsageMessage := "Usage: /resetanimal <player|@a>"
  const OnlyPlayersCommand := "Only players can run this command."
  const OnlyPlayersAbilities := "Only players may use abilities."

  /** The answers `/resetanimal` can give (lines 126-170). */
  datatype ResetDecision<U> =
    | Usage                   // console without arguments
    | SelfRefused             // non-op player without arguments
    | ResetSelf(who: U)       // "Your animal reset."
    | AllRefused              // non-op player with @a
    | ResetAll                // every online player is reset
    | NotFound                // "Player not found or offline."
    | OtherRefused            // non-op player naming a player
    | ResetTarget(target: U)  // the named player is reset

  predicate IsReset<U>(d: ResetDecision<U>) {
    d.ResetSelf? || d.ResetAll? || d.ResetTarget?
  }

  /** Line 142: the `@a` selector, in any case. */
  predicate IsAllSelector(arg: string) {
    EqualsIgnoreCase(arg, "@a")
  }

  /** Lines 124-171: the decision of `/resetanimal`; only `args[0]` is read. */
  function ResetAnimal<U>(sender: Sender<U>, args: seq<string>, lookup: string -> Option<U>): (r: ResetDecision<U>)
    ensures IsReset(r) ==> MayResetOthers(sender)
    ensures r == Usage <==> args == [] && sender.Console?
    ensures r == SelfRefused <==> args == [] && sender.Player? && !sender.op
    ensures r == AllRefused <==> args != [] && IsAllSelector(args[0]) && !MayResetOthers(sender)
    ensures r == OtherRefused <==> args != [] && !IsAllSelector(args[0]) && lookup(args[0]).Some?
                                   && !MayResetOthers(sender)
    ensures r.ResetSelf? <==> args == [] && sender.Player? && sender.op
    ensures r.ResetSelf? ==> r.who == sender.id
    ensures r.ResetAll? <==> args != [] && IsAllSelector(args[0]) && MayResetOthers(sender)
    ensures r == NotFound <==> args != [] && !IsAllSelector(args[0]) && lookup(args[0]).None?
    ensures r.ResetTarget? <==> args != [] && !IsAllSelector(args[0]) && lookup(args[0]).Some? && MayResetOthers(sender)
    ensures r.ResetTarget? ==> Some(r.target) == lookup(args[0])
  {
    if args == [] then
      if sender.Console? then Usage
      else if !sender.op then SelfRefused
      else ResetSelf(sender.id)
    else if IsAllSelector(args[0]) then
      if sender.Player? && !sender.op then AllRefused else ResetAll
    else match lookup(args[0])
      case None => NotFound
      case Some(target) =>
        if sender.Player? && !sender.op then OtherRefused else ResetTarget(target)
  }

  /** What `onCommand` does with a command; `Unhandled` is its `return false`. */
  datatype CommandResult<U> =
    | Reply(message: string)
    | OpenChooser(player: U)
    | Reset(decision: ResetDecision<U>)
    | UseAbility(player: U, ability: string)
    | Unhandled

  /** Lines 111-188: dispatch on the lower-cased command name. */
  function Dispatch<U>(sender: Sender<U>, name: string, args: seq<string>, lookup: string -> Option<U>): (r: CommandResult<U>)
    ensures r.Unhandled? <==> ToLower(name) !in ["chooseanimal", "resetanimal"] + Abilities
    ensures r.OpenChooser? <==> ToLower(name) == "chooseanimal" && sender.Player?
    ensures r.OpenChooser? ==> r.player == sender.id
    ensures r.Reset? <==> ToLower(name) == "resetanimal"
    ensures r.Reset? ==> r.decision == ResetAnimal(sender, args, lookup)
    ensures r.UseAbility? <==> ToLower(name) in Abilities && sender.Player?
    ensures r.UseAbility? ==> sender.Player? && r.player == sender.id && r.ability in Abilities
                              && r.ability == ToLower(name)
    ensures r.Reply? <==> sender.Console? && (ToLower(name) == "chooseanimal" || ToLower(name) in Abilities)
    ensures r.Reply? && ToLower(name) == "chooseanimal" ==> r.message == OnlyPlayersCommand
    ensures r.Reply? && ToLower(name) != "chooseanimal" ==> r.message == OnlyPlayersAbilities
  {
    var cmd := ToLower(name);
    if cmd == "chooseanimal" then
      if sender.Console? then Reply(OnlyPlayersCommand) else OpenChooser(sender.id)
    else if cmd == "resetanimal" then
      Reset(ResetAnimal(sender, args, lookup))
    else if cmd in Abilities then
      if sender.Console? then Reply(OnlyPlayersAbilities) else UseAbility(sender.id, cmd)
    else Unhandled
  }

  // ---------------------------------------------------------------------

  /**
    The authorisation matrix in one statement: `/resetanimal` resets
    exactly when the sender is the console or an operator, the console gave
    an argument, and a named target is online.
   */
  lemma ResetAllowed<U>(sender: Sender<U>, args: seq<string>, lookup: string -> Option<U>)
    ensures IsReset(ResetAnimal(sender, args, lookup))
        <==> MayResetOthers(sender)
             && (args == [] ==> sender.Player?)
             && (args != [] && !IsAllSelector(args[0]) ==> lookup(args[0]).Some?)
  {
  }

  /** A non-operator player is refused even when the target is themselves. */
  lemma NonOpRefusedForSelf<U>(id: U, args: seq<string>, lookup: string -> Option<U>)
    requires args == [] || (!IsAllSelector(args[0]) && lookup(args[0]) == Some(id))
    ensures ResetAnimal(Player(id, false), args, lookup) in {SelfRefused, OtherRefused}
  {
  }

  /** A missing target is reported before permissions are looked at. */
  lemma NotFoundBeforePermission<U>(s1: Sender<U>, s2: Sender<U>, name: string, lookup: string -> Option<U>)
    requires !IsAllSelector(name) && lookup(name).None?
    ensures ResetAnimal(s1, [name], lookup) == ResetAnimal(s2, [name], lookup) == NotFound
  {
  }
}

# AnimalAbilities — a verified model of the animal-binding core

AnimalAbilities is a Paper server plugin. Each player binds once to one of
ten animals (wolf, cat, bee, fox, turtle, horse, sheep, ant, owl,
coppergolem). This project models the part of the plugin's main class,
`AnimalAbilities.java`, that decides and records that binding:

- **Choose/confirm flow.** `/chooseanimal` opens a 54-slot choose screen.
  A click there records a pending selection in `pendingConfirm` and opens a
  final confirmation screen. Confirm on that screen locks the pending id
  into `chosen` and saves it.
- **Key normalisation.** A clicked item's display name becomes a key by
  dropping spaces and `!` and lower-casing. A candidate id is then derived
  from the key, and the Confirm button reads an id off an Info paper.
- **Choose-screen layout.** The screen is filled from two slot tables,
  icon then paper, in index order. The Confirm button scans that screen for
  the first Info paper with a valid id.
- **`/resetanimal` and command dispatch.** Who may reset whom, and what
  `onCommand` does with each command name.
- **Persistence.** `saveChoices` and `loadSavedChoices`, as transforms
  between `chosen` and the `players` section of data.yml.

Players are a type parameter `U`. `isValidAnimalId`, `UUID.toString`,
`UUID.fromString` and `Bukkit.getPlayerExact` are parameters. An inventory
is a map from slot to the display name of the item in it.

Modules, in dependency order:

- `Common` (common.dfy): `Option`.
- `Text` (text.dfy): the `java.lang.String` operations used, over `seq<char>`.
- `Keys` (keys.dfy): the key, candidate and Info-id normalisations.
- `Layout` (layout.dfy): the choose screen and the Confirm scan.
- `Binding` (binding.dfy): each click as a step function on the two maps,
  plus lemmas over runs of clicks.
- `Commands` (commands.dfy): `/resetanimal` and `onCommand`.
- `Persistence` (persistence.dfy): the saved section and the load relation.
- `Plugin` (plugin.dfy): the class `AnimalAbilities`, with map fields and
  handler methods. Each method is proved to agree with the step functions
  above.

Where the documentation and the code disagree, the model follows the code.
The class comment (line 38) says a player may reset their own animal. The
code refuses that to a non-operator (lines 131-134).

Three facts about the code as written, proved below:

- Turtle's icon overwrites wolf's Info paper (slot 19). Ant's icon
  overwrites bee's Info paper (slot 25).
- On the real screen, the choose screen's Confirm button always selects
  "cat", whatever was clicked. Cat's paper in slot 22 is the first Info
  paper that survives.
- Clicking an Info paper never selects anything. Its key keeps the "info"
  suffix, which no valid id has.

## Model

All source paths are `src/main/java/com/animalabilities/AnimalAbilities.java`.

| member | source | states |
|---|---|---|
| `Keys.Key` | src/main/java/com/animalabilities/AnimalAbilities.java:302 | The key of a display name contains no space and no `!`, and has no upper-case letter. |
| `Keys.KeyIdempotent` | src/main/java/com/animalabilities/AnimalAbilities.java:302 | Normalising a key again gives the same key. |
| `Keys.KeyOfTitle` | src/main/java/com/animalabilities/AnimalAbilities.java:302 | An icon title `name!`, with no space or `!` in `name`, has the lower-cased name as its key. |
| `Keys.KeyOfInfoPaper` | src/main/java/com/animalabilities/AnimalAbilities.java:302 | The key of `title + " Info"` is the key of `title` followed by "info". |
| `Keys.InfoId` | src/main/java/com/animalabilities/AnimalAbilities.java:315-317 | The id read off an Info paper contains no `!` and has no upper-case letter. |
| `Keys.InfoIdOfPaper` | src/main/java/com/animalabilities/AnimalAbilities.java:313-317 | For a title with no character at or below U+0020, the id of `title + " Info"` is the title with `!` removed, lower-cased. The trim and the "coppergolem" rewrite change nothing. |
| `Keys.Candidate` | src/main/java/com/animalabilities/AnimalAbilities.java:357-364 | The candidate has no space, no `-` and no upper-case letter. It keeps a `!` only when it is already a valid id, because the `!` is stripped exactly when the first form is not valid. |
| `Keys.CandidateOfKey` | src/main/java/com/animalabilities/AnimalAbilities.java:357-364 | For any key, the `" info"` removal and the `!` retry change nothing. The candidate is the key, trimmed if it ends in "info", with `-` removed, whatever `isValidAnimalId` answers. |
| `Keys.CandidateIsKey` | src/main/java/com/animalabilities/AnimalAbilities.java:357-364 | When the display name has only spaces and characters above U+0020 other than `-`, the candidate is exactly the key. |
| `Keys.InfoPaperCandidate` | src/main/java/com/animalabilities/AnimalAbilities.java:357-364 | The candidate of an Info paper keeps the suffix: it is the title's key followed by "info". |
| `Keys.ConfirmButtonKey` | src/main/java/com/animalabilities/AnimalAbilities.java:322-324 | Every display name equal to "Confirm" up to ASCII case has the key "confirm". So on the Confirm branch the fallback accepts only an id equal to "confirm". |
| `Layout.IconSlot` | src/main/java/com/animalabilities/AnimalAbilities.java:225 | The icon slot of an animal (table entry, or `10 + i`) lies inside the 54-slot chest for the first 44 animals. |
| `Layout.PaperSlot` | src/main/java/com/animalabilities/AnimalAbilities.java:226 | The paper slot of an animal (table entry, or `28 + i`) lies inside the chest for the first 26 animals. |
| `Layout.Placed` | src/main/java/com/animalabilities/AnimalAbilities.java:223-230 | After the first `n` rounds of the fill loop, every icon slot and paper slot of those rounds holds an item. `Layout.LastWriteWins` and `Layout.NeverWritten` say which one. |
| `Layout.ChooseScreen` | src/main/java/com/animalabilities/AnimalAbilities.java:222-234 | The choose screen is the fill loop's result with "Confirm" in slot 49 and "Cancel" in slot 53. |
| `Layout.FillChooseScreen` | src/main/java/com/animalabilities/AnimalAbilities.java:222-234 | The slot-by-slot fill produces `ChooseScreen`: each round writes the icon, then the paper, then Confirm and Cancel go in slots 49 and 53. Every slot written lies in the chest. |
| `Layout.LastWriteWins` | src/main/java/com/animalabilities/AnimalAbilities.java:223-230 | A slot holds what the last round that wrote it put there. Within a round, the paper beats the icon. |
| `Layout.NeverWritten` | src/main/java/com/animalabilities/AnimalAbilities.java:223-230 | A slot that no round writes stays empty. |
| `Layout.NaturalScreen` | src/main/java/com/animalabilities/AnimalAbilities.java:205-234 | The ten animals produce exactly the listed 20-slot screen. |
| `Layout.OverwrittenPapers` | src/main/java/com/animalabilities/AnimalAbilities.java:205-229 | Slot 19 is both wolf's paper slot and turtle's icon slot; slot 25 is both bee's paper slot and ant's icon slot. The screen shows the turtle and ant icons there, and the wolf and bee Info papers appear nowhere. |
| `Layout.ScanFrom` | src/main/java/com/animalabilities/AnimalAbilities.java:310-320 | Whatever the scan returns is a valid id. |
| `Layout.ScanFindsFirst` | src/main/java/com/animalabilities/AnimalAbilities.java:310-320 | The scan returns the id of the first slot, in slot order, holding an Info paper whose id is valid. |
| `Layout.ScanNone` | src/main/java/com/animalabilities/AnimalAbilities.java:310-320 | The scan finds nothing if and only if no slot holds an Info paper with a valid id. |
| `Layout.ConfirmTarget` | src/main/java/com/animalabilities/AnimalAbilities.java:309-324 | The target is the scan's hit if there is one. Otherwise it is the clicked key, if that is valid. It is None exactly when both fail, and any target is valid. |
| `Layout.FindConfirmTarget` | src/main/java/com/animalabilities/AnimalAbilities.java:309-324 | The slot loop with early exit and the key fallback computes `ConfirmTarget`. |
| `Layout.CatInfoId` | src/main/java/com/animalabilities/AnimalAbilities.java:315-317 | The id read off "Cat! Info" is "cat". |
| `Layout.NaturalScan` | src/main/java/com/animalabilities/AnimalAbilities.java:310-320 | On the ten-animal screen, with the ten ids valid, the scan stops at cat's paper. |
| `Layout.ConfirmAlwaysCat` | src/main/java/com/animalabilities/AnimalAbilities.java:306-324 | On the real choose screen, Confirm selects "cat" whatever key was clicked. |
| `Binding.OpenChoose` | src/main/java/com/animalabilities/AnimalAbilities.java:191-195 | The screen opens if and only if the player has not chosen. Otherwise the "already chose" message is sent. |
| `Binding.ChooseClick` | src/main/java/com/animalabilities/AnimalAbilities.java:304-381 | `chosen` never changes on the choose screen. A selection is recorded only as `pending[p] := id` with a valid id; otherwise the state is unchanged. Confirm records the Confirm target if and only if one exists and `p` has not chosen. Without a target the reply is "No animal selected to confirm."; with a target but an existing choice it is "already chose". Cancel closes the menu. Any other item records its candidate if and only if the candidate is valid, and is otherwise silently ignored. |
| `Binding.ConfirmClick` | src/main/java/com/animalabilities/AnimalAbilities.java:384-401 | Confirm removes `p`'s pending entry in every outcome. With nothing pending, `chosen` is unchanged and the reply is "Nothing pending to confirm." With something pending but an existing choice, the reply is "already chose". The choice locks if and only if something was pending and `p` had not chosen. It then sets `chosen[p]` to the removed id and changes no other entry. Other buttons change nothing. |
| `Binding.OnClick` | src/main/java/com/animalabilities/AnimalAbilities.java:285-401 | Only the two titles are handled: any other screen, and an ignored click, leave the whole state unchanged. No player's pending entry changes except the clicker's. No binding is removed or changed, and only the clicker can gain one. A choice is locked exactly when `chosen` changes, and then it is the clicker's pending id. A valid pending map stays valid. |
| `Binding.RunWriteOnce` | src/main/java/com/animalabilities/AnimalAbilities.java:192-400 | Over any sequence of clicks, existing bindings are kept unchanged. Every new binding is a valid id, and pending selections stay valid. |
| `Binding.InfoPaperIgnored` | src/main/java/com/animalabilities/AnimalAbilities.java:356-368 | When no valid id ends in "info", clicking an Info paper leaves both maps unchanged and does nothing. |
| `Binding.InfoPaperNeverSelects` | src/main/java/com/animalabilities/AnimalAbilities.java:356-368 | With the ten real ids, clicking any Info paper on the choose screen leaves both maps unchanged and does nothing. |
| `Binding.SelectThenConfirm` | src/main/java/com/animalabilities/AnimalAbilities.java:356-401 | Clicking an item whose candidate is valid, then Confirm on the final screen, binds exactly that candidate and leaves nothing pending. |
| `Binding.WolfFlow` | src/main/java/com/animalabilities/AnimalAbilities.java:210 | Clicking the "Wolf!" icon, then Confirm, binds the player to "wolf". |
| `Commands.ResetAnimal` | src/main/java/com/animalabilities/AnimalAbilities.java:124-171 | Only the console or an operator ever resets. With no argument, the console gets the usage message, a non-operator is refused, and an operator resets themselves. `@a` in any case resets all players for the console or an operator and is refused to a non-operator. Otherwise an absent target is "not found" for every sender. An online target is reset for the console or an operator and refused to a non-operator. Each outcome is stated as an if-and-only-if. |
| `Commands.ResetAllowed` | src/main/java/com/animalabilities/AnimalAbilities.java:124-171 | A reset happens if and only if the sender is the console or an operator, the console gave an argument, and a named target is online. |
| `Commands.NonOpRefusedForSelf` | src/main/java/com/animalabilities/AnimalAbilities.java:126-165 | A non-operator is refused even when resetting themselves, with or without their own name as argument. |
| `Commands.NotFoundBeforePermission` | src/main/java/com/animalabilities/AnimalAbilities.java:153-157 | An offline target is reported as not found to every sender, before permissions are looked at. |
| `Commands.Dispatch` | src/main/java/com/animalabilities/AnimalAbilities.java:111-188 | The lower-cased command name decides the action. A command is unhandled (`return false`) exactly when it is none of chooseanimal, resetanimal and the ten abilities. The chooser opens for exactly the player senders of chooseanimal. `/resetanimal` answers with exactly the `ResetAnimal` decision. An ability runs exactly for the player senders of an ability command, under its own name. A non-player gets "Only players can run this command." for chooseanimal and "Only players may use abilities." for an ability, and no other reply exists. |
| `Persistence.Saved` | src/main/java/com/animalabilities/AnimalAbilities.java:96-101 | The saved section has exactly one key per bound player, that player's UUID string, holding their animal. |
| `Persistence.LoadKey` | src/main/java/com/animalabilities/AnimalAbilities.java:88-92 | A key that does not parse, or an empty animal, leaves `chosen` unchanged. Otherwise the parsed player is bound to the lower-cased animal. |
| `Persistence.LoadStep` | src/main/java/com/animalabilities/AnimalAbilities.java:87-93 | Loading one more key of the section keeps the partial load a valid load of the keys visited so far. |
| `Persistence.LoadedLowerCase` | src/main/java/com/animalabilities/AnimalAbilities.java:91 | Every binding a load adds is non-empty and lower case. |
| `Persistence.LoadDeterministic` | src/main/java/com/animalabilities/AnimalAbilities.java:87-93 | When no two keys parse to the same player, every iteration order loads the same map. |
| `Persistence.SaveLoadRoundTrip` | src/main/java/com/animalabilities/AnimalAbilities.java:84-101 | Saving, then loading into an empty map, gives back exactly the bindings with a non-empty animal, lower-cased. |
| `Persistence.SaveLoadIdentity` | src/main/java/com/animalabilities/AnimalAbilities.java:84-101 | Bindings that are non-empty and lower case survive a save and a load unchanged. |
| `Plugin.LoadSection` | src/main/java/com/animalabilities/AnimalAbilities.java:87-93 | The key loop, in whatever order it picks keys, produces a valid load of the whole section. |
| `Plugin.SaveSection` | src/main/java/com/animalabilities/AnimalAbilities.java:98-100 | The entry loop writes every binding under its player's key and nothing else. |
| `Plugin.AnimalAbilities.constructor` | src/main/java/com/animalabilities/AnimalAbilities.java:48 | The plugin starts with no bindings and nothing pending, with the given section, validity test and UUID codec. |
| `Plugin.AnimalAbilities.LoadSavedChoices` | src/main/java/com/animalabilities/AnimalAbilities.java:84-94 | `chosen` becomes a load of the `players` section on top of the old bindings. |
| `Plugin.AnimalAbilities.SaveChoices` | src/main/java/com/animalabilities/AnimalAbilities.java:96-107 | The `players` section becomes the saved form of `chosen`. |
| `Plugin.AnimalAbilities.OpenChooseGui` | src/main/java/com/animalabilities/AnimalAbilities.java:191-236 | The outcome is `OpenChoose` of the current maps, with the screen built slot by slot. |
| `Plugin.AnimalAbilities.OnInventoryClick` | src/main/java/com/animalabilities/AnimalAbilities.java:285-402 | The new maps and the outcome are those of `OnClick`, so every `Binding` lemma holds of the object. A locked choice is saved at once; otherwise the section is unchanged. |

## Left out

- Lower-casing and `equalsIgnoreCase` cover the ASCII letters only. `toLowerCase(Locale.ROOT)` on other scripts is not modelled. Nor is the non-ASCII case folding of `equalsIgnoreCase`: in Java, "CONF\u0131RM" and "CONF\u0130RM" equal "Confirm" ignoring case, so such an item takes the Confirm branch at line 306, while the model treats it as an ordinary item. `Keys.ConfirmButtonKey` and `Binding.ChooseClick` hold for ASCII text only.
- Colour codes and `ChatColor.stripColor`: display names are taken as already uncoloured. The two screen titles are "Choose Your Animal" and "Confirm Your Choice", each after the `DARK_GREEN` colour code.
- Item materials, lore and `makeItem`/`safeMaterial`: only display names are kept. An empty slot, or an item without meta, is absent from the inventory map.
- Sounds, `closeInventory`, particles, potion effects and `applyPassiveToPlayer` are left out. Messages appear only as outcome tags.
- The contents of the two final confirmation screens (lines 339-347 and 371-377) are not modelled; the outcome only names the pending id. Final-screen clicks read only the clicked item's display name.
- Buttons other than Confirm on the final screen: their handling comes after line 403, where AnimalAbilities.java breaks off. The model answers `NotModelled` and changes nothing.
- `isValidAnimalId`, `capitalize`, `getPassiveFor` and its siblings, `resetPlayer` and `useAbility` are not part of this model; their bodies come after line 403, where the file breaks off. `isValidAnimalId` is a parameter, and `Layout.IsAnimalId` (the ten ids) is its natural instance.
- `Commands.ResetAnimal` returns the decision only. The effect of `resetPlayer` on `chosen` is not applied, and `getOnlinePlayers` is not enumerated.
- `Commands.Dispatch` returns the action only. Opening the chooser is `Plugin.AnimalAbilities.OpenChooseGui`; running an ability (cooldowns and effects) is not modelled.
- YAML file I/O: creating data.yml, reading and writing the file, and the warning on a failed save. The store is the `players` section as a map from key to animal, with "" for a missing animal. A missing section is an empty map.
- `UUID.toString` and `UUID.fromString` are parameters, required to round-trip. Exceptions from `fromString` other than a parse failure are not distinguished.
- `Plugin.AnimalAbilities.LoadSavedChoices`: `getKeys` fixes no iteration order, so load is specified as a relation (`LoadResult`). When two keys parse to the same player, either animal may win.
- `Plugin.AnimalAbilities.constructor` does not run `onEnable` (file creation, the initial load, listener registration); `LoadSavedChoices` is called separately.
- `Layout.FillChooseScreen` requires at most 26 animals. Beyond that, the fallback paper slot `28 + i` falls outside the chest and `setItem` would throw. The real list has ten.
- Join and respawn handlers, scheduler tasks and the `cooldowns` map are not part of this model.

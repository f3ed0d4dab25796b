/**
  The choose screen built by `openChooseGui` (AnimalAbilities.java,
  lines 197-234) and the scan for an Info paper that its Confirm button runs
  (lines 310-324). An inventory is a map from slot to the display name of
  the item in it; an empty slot is absent from the map.
 */
module Layout {
  import opened Common
  import opened Text
  import opened Keys

  /** An animal descriptor: its id and the title its icon shows. */
  datatype Animal = Animal(id: string, title: string)

  type Inventory = map<int, string>

  const ChestSize := 54
  const ConfirmSlot := 49
  const CancelSlot := 53
  const IconSlots: seq<int> := [10, 12, 14, 16, 19, 21, 23, 25, 30, 32]
  const PaperSlots: seq<int> := [19, 22, 25, 28, 31, 34, 37, 40, 41, 44]

  /** The ten descriptors in the order the screen places them. */
  const Animals: seq<Animal> := [
    Animal("wolf", "Wolf!"), Animal("cat", "Cat!"), Animal("bee", "Bee!"),
    Animal("fox", "Fox!"), Animal("turtle", "Turtle!"), Animal("horse", "Horse!"),
    Animal("sheep", "Sheep!"), Animal("ant", "Ant!"), Animal("owl", "Owl!"),
    Animal("coppergolem", "CopperGolem!")
  ]

  /** The ids of the ten animals: the natural reading of `isValidAnimalId`. */
  predicate IsAnimalId(id: string) {
    id in {"wolf", "cat", "bee", "fox", "turtle", "horse", "sheep", "ant", "owl", "coppergolem"}
  }

  /** Line 225: the icon slot of the i-th animal. */
  function IconSlot(i: nat): (s: int)
    ensures i < 44 ==> 0 <= s < ChestSize
  {
    if i < |IconSlots| then IconSlots[i] else 10 + i
  }

  /** Line 226: the paper slot of the i-th animal. */
  function PaperSlot(i: nat): (s: int)
    ensures i < 26 ==> 0 <= s < ChestSize
  {
    if i < |PaperSlots| then PaperSlots[i] else 28 + i
  }

  /** Line 229: the display name of an animal's Info paper. */
  function InfoName(a: Animal): string {
    a.title + " Info"
  }

  /** The inventory after the first `n` rounds of the loop at lines 223-230. */
  function Placed(animals: seq<Animal>, n: nat): (r: Inventory)
    requires n <= |animals|
    ensures forall i :: 0 <= i < n ==> IconSlot(i) in r && PaperSlot(i) in r
  {
    if n == 0 then map[]
    else Placed(animals, n - 1)[IconSlot(n - 1) := animals[n - 1].title]
                               [PaperSlot(n - 1) := InfoName(animals[n - 1])]
  }

  /** The whole choose screen: the loop, then Confirm and Cancel (233-234). */
  function ChooseScreen(animals: seq<Animal>): (r: Inventory)
    ensures ConfirmSlot in r && r[ConfirmSlot] == "Confirm"
    ensures CancelSlot in r && r[CancelSlot] == "Cancel"
  {
    Placed(animals, |animals|)[ConfirmSlot := "Confirm"][CancelSlot := "Cancel"]
  }

  /**
    Lines 222-234, writing one slot at a time. `setItem` rejects a slot
    outside the chest, so at most 26 animals fit the fallback slots.
   */
  method FillChooseScreen(animals: seq<Animal>) returns (inv: Inventory)
    requires |animals| <= 26
    ensures inv == ChooseScreen(animals)
    ensures forall s :: s in inv ==> 0 <= s < ChestSize
  {
    inv := map[];
    var i := 0;
    while i < |animals|
      invariant 0 <= i <= |animals|
      invariant inv == Placed(animals, i)
      invariant forall s :: s in inv ==> 0 <= s < ChestSize
    {
      var iconSlot := if i < |IconSlots| then IconSlots[i] else 10 + i;
      var paperSlot := if i < |PaperSlots| then PaperSlots[i] else 28 + i;
      inv := inv[iconSlot := animals[i].title];
      inv := inv[paperSlot := animals[i].title + " Info"];
      i := i + 1;
    }
    inv := inv[ConfirmSlot := "Confirm"];
    inv := inv[CancelSlot := "Cancel"];
  }

  /**
    Later writes win: a slot holds what the last round that wrote it put
    there, and a round's paper beats its own icon.
   */
  lemma {:induction false} LastWriteWins(animals: seq<Animal>, n: nat, j: nat, s: int)
    requires j < n <= |animals|
    requires IconSlot(j) == s || PaperSlot(j) == s
    requires forall k :: j < k < n ==> IconSlot(k) != s && PaperSlot(k) != s
    ensures s in Placed(animals, n)
    ensures Placed(animals, n)[s] == if PaperSlot(j) == s then InfoName(animals[j]) else animals[j].title
  {
    if n - 1 != j {
      LastWriteWins(animals, n - 1, j, s);
    }
  }

  /** A slot no round writes stays empty. */
  lemma {:induction false} NeverWritten(animals: seq<Animal>, n: nat, s: int)
    requires n <= |animals|
    requires forall k :: 0 <= k < n ==> IconSlot(k) != s && PaperSlot(k) != s
    ensures s !in Placed(animals, n)
  {
    if n > 0 {
      NeverWritten(animals, n - 1, s);
    }
  }

  // The inventory after each round of the ten animals: stages of NaturalScreen.

  lemma NaturalPlaced1()
    ensures Placed(Animals, 1) == map[
      10 := "Wolf!", 19 := "Wolf! Info"]
  {
    var a := Animals;
    assert Placed(a, 0) == map[];
    assert a[0] == Animal("wolf", "Wolf!") && IconSlot(0) == 10 && PaperSlot(0) == 19;
    assert InfoName(a[0]) == "Wolf! Info";
    assert Placed(a, 1) == Placed(a, 0)[10 := "Wolf!"][19 := "Wolf! Info"];
  }

  lemma NaturalPlaced2()
    ensures Placed(Animals, 2) == map[
      10 := "Wolf!", 12 := "Cat!", 19 := "Wolf! Info", 22 := "Cat! Info"]
  {
    var a := Animals;
    NaturalPlaced1();
    assert a[1] == Animal("cat", "Cat!") && IconSlot(1) == 12 && PaperSlot(1) == 22;
    assert InfoName(a[1]) == "Cat! Info";
    assert Placed(a, 2) == Placed(a, 1)[12 := "Cat!"][22 := "Cat! Info"];
  }

  lemma NaturalPlaced3()
    ensures Placed(Animals, 3) == map[
      10 := "Wolf!", 12 := "Cat!", 14 := "Bee!", 19 := "Wolf! Info",
      22 := "Cat! Info", 25 := "Bee! Info"]
  {
    var a := Animals;
    NaturalPlaced2();
    assert a[2] == Animal("bee", "Bee!") && IconSlot(2) == 14 && PaperSlot(2) == 25;
    assert InfoName(a[2]) == "Bee! Info";
    assert Placed(a, 3) == Placed(a, 2)[14 := "Bee!"][25 := "Bee! Info"];
  }

  lemma NaturalPlaced4()
    ensures Placed(Animals, 4) == map[
      10 := "Wolf!", 12 := "Cat!", 14 := "Bee!", 16 := "Fox!",
      19 := "Wolf! Info", 22 := "Cat! Info", 25 := "Bee! Info", 28 := "Fox! Info"]
  {
    var a := Animals;
    NaturalPlaced3();
    assert a[3] == Animal("fox", "Fox!") && IconSlot(3) == 16 && PaperSlot(3) == 28;
    assert InfoName(a[3]) == "Fox! Info";
    assert Placed(a, 4) == Placed(a, 3)[16 := "Fox!"][28 := "Fox! Info"];
  }

  lemma NaturalPlaced5()
    ensures Placed(Animals, 5) == map[
      10 := "Wolf!", 12 := "Cat!", 14 := "Bee!", 16 := "Fox!",
      19 := "Turtle!", 22 := "Cat! Info", 25 := "Bee! Info", 28 := "Fox! Info",
      31 := "Turtle! Info"]
  {
    var a := Animals;
    NaturalPlaced4();
    assert a[4] == Animal("turtle", "Turtle!") && IconSlot(4) == 19 && PaperSlot(4) == 31;
    assert InfoName(a[4]) == "Turtle! Info";
    assert Placed(a, 5) == Placed(a, 4)[19 := "Turtle!"][31 := "Turtle! Info"];
  }

  lemma NaturalPlaced6()
    ensures Placed(Animals, 6) == map[
      10 := "Wolf!", 12 := "Cat!", 14 := "Bee!", 16 := "Fox!",
      19 := "Turtle!", 21 := "Horse!", 22 := "Cat! Info", 25 := "Bee! Info",
      28 := "Fox! Info", 31 := "Turtle! Info", 34 := "Horse! Info"]
  {
    var a := Animals;
    NaturalPlaced5();
    assert a[5] == Animal("horse", "Horse!") && IconSlot(5) == 21 && PaperSlot(5) == 34;
    assert InfoName(a[5]) == "Horse! Info";
    assert Placed(a, 6) == Placed(a, 5)[21 := "Horse!"][34 := "Horse! Info"];
  }

  lemma NaturalPlaced7()
    ensures Placed(Animals, 7) == map[
      10 := "Wolf!", 12 := "Cat!", 14 := "Bee!", 16 := "Fox!",
      19 := "Turtle!", 21 := "Horse!", 22 := "Cat! Info", 23 := "Sheep!",
      25 := "Bee! Info", 28 := "Fox! Info", 31 := "Turtle! Info", 34 := "Horse! Info",
      37 := "Sheep! Info"]
  {
    var a := Animals;
    NaturalPlaced6();
    assert a[6] == Animal("sheep", "Sheep!") && IconSlot(6) == 23 && PaperSlot(6) == 37;
    assert InfoName(a[6]) == "Sheep! Info";
    assert Placed(a, 7) == Placed(a, 6)[23 := "Sheep!"][37 := "Sheep! Info"];
  }

  lemma NaturalPlaced8()
    ensures Placed(Animals, 8) == map[
      10 := "Wolf!", 12 := "Cat!", 14 := "Bee!", 16 := "Fox!",
      19 := "Turtle!", 21 := "Horse!", 22 := "Cat! Info", 23 := "Sheep!",
      25 := "Ant!", 28 := "Fox! Info", 31 := "Turtle! Info", 34 := "Horse! Info",
      37 := "Sheep! Info", 40 := "Ant! Info"]
  {
    var a := Animals;
    NaturalPlaced7();
    assert a[7] == Animal("ant", "Ant!") && IconSlot(7) == 25 && PaperSlot(7) == 40;
    assert InfoName(a[7]) == "Ant! Info";
    assert Placed(a, 8) == Placed(a, 7)[25 := "Ant!"][40 := "Ant! Info"];
  }

  lemma NaturalPlaced9()
    ensures Placed(Animals, 9) == map[
      10 := "Wolf!", 12 := "Cat!", 14 := "Bee!", 16 := "Fox!",
      19 := "Turtle!", 21 := "Horse!", 22 := "Cat! Info", 23 := "Sheep!",
      25 := "Ant!", 28 := "Fox! Info", 30 := "Owl!", 31 := "Turtle! Info",
      34 := "Horse! Info", 37 := "Sheep! Info", 40 := "Ant! Info", 41 := "Owl! Info"]
  {
    var a := Animals;
    NaturalPlaced8();
    assert a[8] == Animal("owl", "Owl!") && IconSlot(8) == 30 && PaperSlot(8) == 41;
    assert InfoName(a[8]) == "Owl! Info";
    assert Placed(a, 9) == Placed(a, 8)[30 := "Owl!"][41 := "Owl! Info"];
  }

  lemma NaturalPlaced10()
    ensures Placed(Animals, 10) == map[
      10 := "Wolf!", 12 := "Cat!", 14 := "Bee!", 16 := "Fox!",
      19 := "Turtle!", 21 := "Horse!", 22 := "Cat! Info", 23 := "Sheep!",
      25 := "Ant!", 28 := "Fox! Info", 30 := "Owl!", 31 := "Turtle! Info",
      32 := "CopperGolem!", 34 := "Horse! Info", 37 := "Sheep! Info", 40 := "Ant! Info",
      41 := "Owl! Info", 44 := "CopperGolem! Info"]
  {
    var a := Animals;
    NaturalPlaced9();
    assert a[9] == Animal("coppergolem", "CopperGolem!") && IconSlot(9) == 32 && PaperSlot(9) == 44;
    assert InfoName(a[9]) == "CopperGolem! Info";
    assert Placed(a, 10) == Placed(a, 9)[32 := "CopperGolem!"][44 := "CopperGolem! Info"];
  }

  /** The choose screen of the ten animals, slot by slot. */
  const NaturalInventory: Inventory := map[
    10 := "Wolf!", 12 := "Cat!", 14 := "Bee!", 16 := "Fox!",
    19 := "Turtle!", 21 := "Horse!", 22 := "Cat! Info", 23 := "Sheep!",
    25 := "Ant!", 28 := "Fox! Info", 30 := "Owl!", 31 := "Turtle! Info",
    32 := "CopperGolem!", 34 := "Horse! Info", 37 := "Sheep! Info", 40 := "Ant! Info",
    41 := "Owl! Info", 44 := "CopperGolem! Info", 49 := "Confirm", 53 := "Cancel"]

  /**
    The screen the ten animals produce. Turtle's icon lands on wolf's paper
    (slot 19) and ant's icon on bee's paper (slot 25), so those two Info
    papers never appear.
   */
  lemma NaturalScreen()
    ensures ChooseScreen(Animals) == NaturalInventory
  {
    NaturalPlaced10();
  }

  /**
    On that screen turtle's icon sits where wolf's paper was written
    (slot 19) and ant's icon where bee's paper was (slot 25), so those two
    Info papers never appear.
   */
  lemma OverwrittenPapers()
    ensures PaperSlot(0) == IconSlot(4) == 19 && PaperSlot(2) == IconSlot(7) == 25
    ensures NaturalInventory[19] == Animals[4].title && NaturalInventory[25] == Animals[7].title
    ensures InfoName(Animals[0]) !in NaturalInventory.Values
    ensures InfoName(Animals[2]) !in NaturalInventory.Values
  {
    assert NaturalInventory[19] == "Turtle!";
    assert NaturalInventory[25] == "Ant!";
    assert InfoName(Animals[0]) == "Wolf! Info";
    assert InfoName(Animals[2]) == "Bee! Info";
  }

  // ---------------------------------------------------------------------
  // The Confirm button's scan (lines 309-324).

  /** Lines 313-318: an item the scan stops at. */
  predicate InfoHit(d: string, valid: string -> bool) {
    EndsWith(d, " Info") && valid(InfoId(d))
  }

  /** The first slot at or after `from` holding an Info paper whose id is valid. */
  function ScanFrom(inv: Inventory, from: int, valid: string -> bool): (r: Option<string>)
    requires 0 <= from <= ChestSize
    ensures r.Some? ==> valid(r.value)
    decreases ChestSize - from
  {
    if from == ChestSize then None
    else if from in inv && InfoHit(inv[from], valid) then Some(InfoId(inv[from]))
    else ScanFrom(inv, from + 1, valid)
  }

  /**
    Lines 309-324: the id the choose screen's Confirm button selects, given
    the key of the clicked item: the scan's result, else the key itself when
    it is a valid id.
   */
  function ConfirmTarget(inv: Inventory, key: string, valid: string -> bool): (r: Option<string>)
    ensures r.Some? ==> valid(r.value)
    ensures ScanFrom(inv, 0, valid).Some? ==> r == ScanFrom(inv, 0, valid)
    ensures r.None? <==> ScanFrom(inv, 0, valid).None? && !valid(key)
    ensures ScanFrom(inv, 0, valid).None? && valid(key) ==> r == Some(key)
  {
    match ScanFrom(inv, 0, valid)
    case Some(id) => Some(id)
    case None => if valid(key) then Some(key) else None
  }

  /** Lines 309-324 as the source runs them: a pass over the chest's slots with an early exit. */
  method FindConfirmTarget(inv: Inventory, key: string, valid: string -> bool) returns (r: Option<string>)
    ensures r == ConfirmTarget(inv, key, valid)
  {
    r := None;
    var slot := 0;
    while slot < ChestSize
      invariant 0 <= slot <= ChestSize
      invariant r.None? ==> ScanFrom(inv, slot, valid) == ScanFrom(inv, 0, valid)
      invariant r.Some? ==> r == ScanFrom(inv, 0, valid)
    {
      assert ScanFrom(inv, slot, valid) ==
        if slot in inv && InfoHit(inv[slot], valid) then Some(InfoId(inv[slot])) else ScanFrom(inv, slot + 1, valid);
      if slot in inv {
        var d := inv[slot];
        if EndsWith(d, " Info") {
          var id := InfoId(d);
          if valid(id) {
            r := Some(id);
            break;
          }
        }
      }
      slot := slot + 1;
    }
    if r.None? && valid(key) {
      r := Some(key);
    }
  }

  /** Scanning is deterministic: the first hit is the answer. */
  lemma {:induction false} ScanFindsFirst(inv: Inventory, from: int, valid: string -> bool, k: int)
    requires 0 <= from <= k < ChestSize
    requires k in inv && InfoHit(inv[k], valid)
    requires forall t :: from <= t < k && t in inv ==> !InfoHit(inv[t], valid)
    ensures ScanFrom(inv, from, valid) == Some(InfoId(inv[k]))
    decreases k - from
  {
    if from < k {
      ScanFindsFirst(inv, from + 1, valid, k);
    }
  }

  /** A scan finds nothing exactly when no slot holds a hit. */
  lemma {:induction false} ScanNone(inv: Inventory, from: int, valid: string -> bool)
    requires 0 <= from <= ChestSize
    ensures ScanFrom(inv, from, valid).None?
        <==> forall s :: from <= s < ChestSize && s in inv ==> !InfoHit(inv[s], valid)
    decreases ChestSize - from
  {
    if from < ChestSize {
      ScanNone(inv, from + 1, valid);
    }
  }

  /** The first 22 slots of the natural screen hold no Info paper. */
  lemma NoInfoBeforeCat()
    ensures forall t :: 0 <= t < 22 && t in NaturalInventory ==> !EndsWith(NaturalInventory[t], " Info")
  {
    var inv := NaturalInventory;
    forall t | 0 <= t < 22 && t in inv ensures !EndsWith(inv[t], " Info") {
      assert t == 10 || t == 12 || t == 14 || t == 16 || t == 19 || t == 21;
      if t == 10 { assert !EndsWith(inv[10], " Info"); }
      else if t == 12 { assert !EndsWith(inv[12], " Info"); }
      else if t == 14 { assert !EndsWith(inv[14], " Info"); }
      else if t == 16 { assert !EndsWith(inv[16], " Info"); }
      else if t == 19 { assert !EndsWith(inv[19], " Info"); }
      else { assert !EndsWith(inv[21], " Info"); }
    }
  }

  /**
    On the screen of the ten animals, with the ten ids as valid, the
    Confirm button selects "cat" whatever was clicked: cat's Info paper
    in slot 22 is the first surviving one.
   */
  lemma ConfirmAlwaysCat(key: string)
    ensures ConfirmTarget(ChooseScreen(Animals), key, IsAnimalId) == Some("cat")
  {
    NaturalScreen();
    NaturalScan();
  }

  lemma CatInfoId()
    ensures InfoId("Cat!" + " Info") == "cat"
  {
    CatUntrimmed();
    InfoIdOfPaper("Cat!");
    CatBangRemoved();
    assert ToLower("Cat") == "cat";
  }

  lemma CatUntrimmed()
    ensures forall i :: 0 <= i < |"Cat!"| ==> !IsTrimmed("Cat!"[i])
  {
    var t := "Cat!";
    forall i | 0 <= i < |t| ensures !IsTrimmed(t[i]) {
      assert t[i] in "Cat!";
    }
  }

  lemma CatBangRemoved()
    ensures RemoveAll("Cat!", '!') == "Cat"
  {
    assert RemoveAll("!", '!') == [];
    assert RemoveAll("t!", '!') == "t";
    assert RemoveAll("at!", '!') == "at";
  }

  lemma NaturalScan()
    ensures ScanFrom(NaturalInventory, 0, IsAnimalId) == Some("cat")
  {
    var inv := NaturalInventory;
    assert inv[22] == "Cat!" + " Info";
    CatInfoId();
    NoInfoBeforeCat();
    ScanFindsFirst(inv, 0, IsAnimalId, 22);
  }
}

/**
  How the plugin turns an item's display name into an animal id
  (AnimalAbilities.java, lines 302, 313-317 and 357-364). Display names are
  taken as already stripped of colour codes.
 */
module Keys {
  import opened Text

  /** Line 302: the display name with every space and `!` removed, lower-cased. */
  function Key(display: string): (r: string)
    ensures ' ' !in r && '!' !in r
    ensures IsLowerCase(r)
  {
    var bare := RemoveAll(RemoveAll(display, ' '), '!');
    ToLowerKeepsAbsent(bare, ' ');
    ToLowerKeepsAbsent(bare, '!');
    ToLowerIsLowerCase(bare);
    ToLower(bare)
  }

  /**
    Lines 315-317: the id read off an Info paper during the Confirm scan:
    `" Info"` and `!` removed, trimmed, lower-cased, then the (identity)
    rewrite of "coppergolem".
   */
  function InfoId(d: string): (r: string)
    ensures '!' !in r
    ensures IsLowerCase(r)
  {
    var stripped := Trim(RemoveAll(Replace(d, " Info", ""), '!'));
    var id := ToLower(stripped);
    ToLowerKeepsAbsent(stripped, '!');
    ToLowerIsLowerCase(stripped);
    ReplaceBySelf(id, "coppergolem");
    Replace(id, "coppergolem", "coppergolem")
  }

  /**
    Lines 357-364: the candidate id for a click on an icon or Info paper of
    the choose screen, computed from the key of line 302. `valid` is
    `isValidAnimalId`.
   */
  function Candidate(key: string, valid: string -> bool): (r: string)
    ensures ' ' !in r && '-' !in r && IsLowerCase(r)
    ensures valid(r) || '!' !in r
  {
    var c0 := if EndsWith(key, "info") then Trim(Replace(key, " info", "")) else key;
    var c1 := ToLower(RemoveAll(RemoveAll(c0, ' '), '-'));
    ToLowerKeepsAbsent(RemoveAll(RemoveAll(c0, ' '), '-'), ' ');
    ToLowerKeepsAbsent(RemoveAll(RemoveAll(c0, ' '), '-'), '-');
    ToLowerIsLowerCase(RemoveAll(RemoveAll(c0, ' '), '-'));
    if !valid(c1) then
      var c2 := RemoveAll(c1, '!');
      assert forall i :: 0 <= i < |c2| ==> c2[i] in c1;
      c2
    else c1
  }

  /** Every character other than a space is above U+0020 and is not `-`. */
  predicate PlainName(d: string) {
    forall i :: 0 <= i < |d| ==> d[i] == ' ' || (!IsTrimmed(d[i]) && d[i] != '-')
  }

  // ---------------------------------------------------------------------

  /** Normalising twice is normalising once. */
  lemma KeyIdempotent(display: string)
    ensures Key(Key(display)) == Key(display)
  {
    var k := Key(display);
    RemoveAllAbsent(k, ' ');
    RemoveAllAbsent(k, '!');
    ToLowerOfLowerCase(k);
  }

  /**
    Because a key holds no space, the `" info"` removal of line 358 never
    fires, and the `!` removal of line 363 has nothing left to remove: the
    candidate of a key is the key, trimmed when it ends in "info", with
    `-` removed, whatever `isValidAnimalId` says.
   */
  lemma CandidateOfKey(key: string, valid: string -> bool)
    requires ' ' !in key && '!' !in key && IsLowerCase(key)
    ensures Candidate(key, valid) == RemoveAll(if EndsWith(key, "info") then Trim(key) else key, '-')
  {
    ReplaceAbsent(key, " info", "");
    var c0 := if EndsWith(key, "info") then Trim(key) else key;
    assert ' ' !in c0 && '!' !in c0;
    assert IsLowerCase(c0) by {
      if EndsWith(key, "info") { LowerCaseSubset(key, c0); }
    }
    RemoveAllAbsent(c0, ' ');
    var c1 := RemoveAll(c0, '-');
    LowerCaseSubset(c0, c1);
    ToLowerOfLowerCase(c1);
    RemoveAllAbsent(c1, '!');
  }

  lemma LowerCaseSubset(a: string, b: string)
    requires IsLowerCase(a)
    requires forall x :: x in b ==> x in a
    ensures IsLowerCase(b)
  {
    forall i | 0 <= i < |b| ensures !IsUpper(b[i]) {
      assert b[i] in b;
      var j :| 0 <= j < |a| && a[j] == b[i];
    }
  }

  /** For a plain display name the candidate is exactly its key. */
  lemma CandidateIsKey(display: string, valid: string -> bool)
    requires PlainName(display)
    ensures Candidate(Key(display), valid) == Key(display)
  {
    var k := Key(display);
    CandidateOfKey(k, valid);
    var bare := RemoveAll(RemoveAll(display, ' '), '!');
    forall x | x in bare ensures !IsTrimmed(x) && x != '-' {
      assert x in display && x != ' ';
      var i :| 0 <= i < |display| && display[i] == x;
    }
    forall i | 0 <= i < |k| ensures !IsTrimmed(k[i]) && k[i] != '-' {
      assert bare[i] in bare;
    }
    TrimNoOp(k);
    assert '-' !in k;
    RemoveAllAbsent(k, '-');
  }

  /** The key of an Info paper is the key of its title followed by "info". */
  lemma KeyOfInfoPaper(title: string)
    ensures Key(title + " Info") == Key(title) + "info"
  {
    var t1 := RemoveAll(title, ' ');
    var t2 := RemoveAll(t1, '!');
    calc {
      Key(title + " Info");
      ToLower(RemoveAll(RemoveAll(title + " Info", ' '), '!'));
      { InfoSpaceRemoved(title); }
      ToLower(RemoveAll(t1 + "Info", '!'));
      { InfoBangRemoved(t1); }
      ToLower(t2 + "Info");
      { InfoLowered(t2); }
      ToLower(t2) + "info";
    }
  }

  lemma InfoSpaceRemoved(title: string)
    ensures RemoveAll(title + " Info", ' ') == RemoveAll(title, ' ') + "Info"
  {
    RemoveAllConcat(title, " Info", ' ');
    RemoveAllAbsent("Info", ' ');
    assert RemoveAll(" Info", ' ') == "Info";
  }

  lemma InfoBangRemoved(t: string)
    ensures RemoveAll(t + "Info", '!') == RemoveAll(t, '!') + "Info"
  {
    RemoveAllConcat(t, "Info", '!');
    RemoveAllAbsent("Info", '!');
  }

  lemma InfoLowered(t: string)
    ensures ToLower(t + "Info") == ToLower(t) + "info"
  {
    ToLowerConcat(t, "Info");
    assert ToLower("Info") == "info";
  }

  /** The key of an icon title `name + "!"` is the lower-cased name. */
  lemma KeyOfTitle(name: string, id: string)
    requires ' ' !in name && '!' !in name && ToLower(name) == id
    ensures Key(name + "!") == id
  {
    RemoveAllAbsent(name + "!", ' ');
    RemoveAllConcat(name, "!", '!');
    RemoveAllAbsent(name, '!');
    assert RemoveAll("!", '!') == [];
    assert name + [] == name;
  }

  /** Clicking an Info paper yields a candidate that keeps the "info" suffix. */
  lemma InfoPaperCandidate(title: string, valid: string -> bool)
    requires PlainName(title)
    ensures Candidate(Key(title + " Info"), valid) == Key(title) + "info"
  {
    KeyOfInfoPaper(title);
    var d := title + " Info";
    assert PlainName(d) by {
      forall i | 0 <= i < |d| ensures d[i] == ' ' || (!IsTrimmed(d[i]) && d[i] != '-') {
        if i >= |title| {
          assert d[i] == " Info"[i - |title|];
        }
      }
    }
    CandidateIsKey(d, valid);
  }

  /** The id the Confirm scan reads off `title + " Info"`. */
  lemma InfoIdOfPaper(title: string)
    requires forall i :: 0 <= i < |title| ==> !IsTrimmed(title[i])
    ensures InfoId(title + " Info") == ToLower(RemoveAll(title, '!'))
  {
    ReplaceInfoSuffix(title);
    var r := RemoveAll(title, '!');
    forall i | 0 <= i < |r| ensures !IsTrimmed(r[i]) {
      assert r[i] in r;
      assert r[i] in title;
    }
    TrimNoOp(r);
    ReplaceBySelf(ToLower(r), "coppergolem");
  }

  lemma {:induction false} ReplaceInfoSuffix(title: string)
    requires forall i :: 0 <= i < |title| ==> !IsTrimmed(title[i])
    ensures Replace(title + " Info", " Info", "") == title
  {
    var s := title + " Info";
    if title == [] {
      assert s[..5] == " Info";
      assert s[5..] == [];
    } else {
      assert s[..5][0] == title[0] != ' ';
      assert s[1..] == title[1..] + " Info";
      ReplaceInfoSuffix(title[1..]);
      assert [title[0]] + title[1..] == title;
    }
  }

  /**
    The fallback of line 323 reads the key of the clicked item, and on that
    branch the clicked item is the Confirm button itself: its key is always
    "confirm".
   */
  lemma ConfirmButtonKey(display: string)
    requires EqualsIgnoreCase(display, "Confirm")
    ensures Key(display) == "confirm"
  {
    assert ToLower(display) == "confirm";
    forall i | 0 <= i < |display| ensures display[i] != ' ' && display[i] != '!' {
      assert LowerChar(display[i]) == "confirm"[i];
    }
    RemoveAllAbsent(display, ' ');
    RemoveAllAbsent(display, '!');
  }
}

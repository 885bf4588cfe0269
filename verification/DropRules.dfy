/** Which entries a compaction may drop, and why no reader notices (DoCompactionWork in db/db_impl.cc). */
module DropRules {
  import opened InternalKeys

  /** Rule (A): a newer version of the key, itself at or below the smallest snapshot, is in the input. */
  ghost predicate Shadowed(I: set<Entry>, floor: nat, e: Entry) {
    exists n :: n in I && SameUserKey(n, e) && e.key.sequence < n.key.sequence <= floor
  }

  /** Rule (B): a deletion that every snapshot sees and that hides nothing deeper. */
  predicate Obsolete(floor: nat, base: UserKey -> bool, e: Entry) {
    e.key.kind == TypeDeletion && e.key.sequence <= floor && base(e.key.userKey)
  }

  ghost function Survivors(I: set<Entry>, floor: nat, base: UserKey -> bool): set<Entry> {
    set e | e in I && !Shadowed(I, floor, e) && !Obsolete(floor, base, e)
  }

  /** Every older version of an input key outside the input is announced by `base`. */
  ghost predicate OlderIsAnnounced(I: set<Entry>, R: set<Entry>, base: UserKey -> bool) {
    forall e, r | e in I && r in R && SameUserKey(e, r) && r.key.sequence < e.key.sequence :: !base(e.key.userKey)
  }

  lemma NewestAtFloor(I: set<Entry>, R: set<Entry>, k: UserKey, s: nat, floor: nat, e: Entry)
    requires floor <= s && IsNewest(I + R, k, s, e)
    ensures !Shadowed(I, floor, e)
  {
    if n :| n in I && SameUserKey(n, e) && e.key.sequence < n.key.sequence <= floor {
      assert n in I + R && Matches(n, k, s);
      assert false;
    }
  }

  /** At or above the smallest snapshot every read is the same after the drops as before. */
  lemma DropsPreserveReads(I: set<Entry>, R: set<Entry>, floor: nat, base: UserKey -> bool, k: UserKey, s: nat)
    requires Unique(I + R) && OlderIsAnnounced(I, R, base) && floor <= s
    ensures Unique(Survivors(I, floor, base) + R)
    ensures Read(Survivors(I, floor, base) + R, k, s) == Read(I + R, k, s)
  {
    var O := Survivors(I, floor, base);
    assert O + R <= I + R;
    forall e | IsNewest(I + R, k, s, e) && e.key.kind == TypeValue ensures IsNewest(O + R, k, s, e) {
      NewestAtFloor(I, R, k, s, floor, e);
    }
    forall e | IsNewest(O + R, k, s, e) && e.key.kind == TypeValue ensures IsNewest(I + R, k, s, e) {
      NothingNewerWasDropped(I, R, floor, base, k, s, e);
    }
    SameReads(O + R, I + R, k, s);
  }

  /** If a value is the newest after the drops, nothing newer than it was dropped. */
  lemma NothingNewerWasDropped(I: set<Entry>, R: set<Entry>, floor: nat, base: UserKey -> bool, k: UserKey, s: nat, e: Entry)
    requires Unique(I + R) && OlderIsAnnounced(I, R, base) && floor <= s
    requires IsNewest(Survivors(I, floor, base) + R, k, s, e) && e.key.kind == TypeValue
    ensures IsNewest(I + R, k, s, e)
  {
    var O := Survivors(I, floor, base);
    NewestExists(I + R, k, s);
    assert e in I + R;
    var n := Newest(I + R, k, s).value;
    NewestAtFloor(I, R, k, s, floor, n);
    if n != e {
      assert e.key.sequence < n.key.sequence;
      assert n !in O + R;
      assert Obsolete(floor, base, n);
      assert SameUserKey(n, e);
      assert false;
    }
  }

  /**
    The exact condition.  Reads at or above the smallest snapshot survive the drops if and only if no
    dropped deletion was the newest entry at that snapshot while the newest entry left outside is a value.
  */
  ghost predicate Uncovers(I: set<Entry>, R: set<Entry>, floor: nat, base: UserKey -> bool, k: UserKey) {
    && base(k)
    && Newest(I + R, k, floor).Some?
    && Newest(I + R, k, floor).value in I
    && Newest(I + R, k, floor).value.key.kind == TypeDeletion
    && Read(R, k, floor).Some?
  }

  lemma DropsPreserveReadsExactly(I: set<Entry>, R: set<Entry>, floor: nat, base: UserKey -> bool, k: UserKey)
    requires Unique(I + R) && I !! R
    ensures (forall s | floor <= s :: Read(Survivors(I, floor, base) + R, k, s) == Read(I + R, k, s))
       <==> !Uncovers(I, R, floor, base, k)
  {
    var O := Survivors(I, floor, base);
    assert O + R <= I + R && Unique(O + R) && Unique(R);
    if Uncovers(I, R, floor, base, k) {
      UncoveredReadChanges(I, R, floor, base, k);
    } else {
      forall s | floor <= s ensures Read(O + R, k, s) == Read(I + R, k, s) {
        CoveredReadStays(I, R, floor, base, k, s);
      }
    }
  }

  lemma UncoveredReadChanges(I: set<Entry>, R: set<Entry>, floor: nat, base: UserKey -> bool, k: UserKey)
    requires Unique(I + R) && I !! R && Uncovers(I, R, floor, base, k)
    ensures Read(Survivors(I, floor, base) + R, k, floor) != Read(I + R, k, floor)
  {
    var O := Survivors(I, floor, base);
    var n, r := Newest(I + R, k, floor).value, Newest(R, k, floor).value;
    forall x | x in O + R && Matches(x, k, floor) && x != r ensures x.key.sequence < r.key.sequence {
      assert x in I + R;
    }
    NewestIs(O + R, k, floor, r);
  }

  lemma CoveredReadStays(I: set<Entry>, R: set<Entry>, floor: nat, base: UserKey -> bool, k: UserKey, s: nat)
    requires Unique(I + R) && I !! R && !Uncovers(I, R, floor, base, k) && floor <= s
    requires Unique(Survivors(I, floor, base) + R) && Unique(R)
    ensures Read(Survivors(I, floor, base) + R, k, s) == Read(I + R, k, s)
  {
    var O := Survivors(I, floor, base);
    forall e | IsNewest(I + R, k, s, e) && e.key.kind == TypeValue ensures IsNewest(O + R, k, s, e) {
      NewestAtFloor(I, R, k, s, floor, e);
    }
    forall e | IsNewest(O + R, k, s, e) && e.key.kind == TypeValue ensures IsNewest(I + R, k, s, e) {
      NewestExists(I + R, k, s);
      assert e in I + R;
      var n := Newest(I + R, k, s).value;
      NewestAtFloor(I, R, k, s, floor, n);
      if n != e {
        assert n !in O + R && Obsolete(floor, base, n);
        assert IsNewest(I + R, k, floor, n);
        NewestIs(I + R, k, floor, n);
        assert IsNewest(R, k, floor, e);
        NewestIs(R, k, floor, e);
        assert false;
      }
    }
    SameReads(O + R, I + R, k, s);
  }

  /** Some reader at or above the smallest snapshot, looking in the input alone, finds this entry. */
  ghost predicate Wanted(I: set<Entry>, floor: nat, e: Entry) {
    exists s :: floor <= s && IsNewest(I, e.key.userKey, s, e)
  }

  /** What survives is just what some reader finds, but for deletions that all readers see and that hide nothing. */
  lemma SurvivorsAreWanted(I: set<Entry>, floor: nat, base: UserKey -> bool, e: Entry)
    requires Unique(I) && e in I
    ensures e in Survivors(I, floor, base) <==>
            Wanted(I, floor, e) && !(e.key.kind == TypeDeletion && e.key.sequence <= floor && base(e.key.userKey))
  {
    var s := if e.key.sequence > floor then e.key.sequence else floor;
    if !Shadowed(I, floor, e) {
      forall x | x in I && Matches(x, e.key.userKey, s) && x != e
        ensures x.key.sequence < e.key.sequence
      {
        assert SameUserKey(x, e);
        assert x.key.sequence == e.key.sequence ==> x == e;
      }
      assert IsNewest(I, e.key.userKey, s, e);
    }
    if Wanted(I, floor, e) {
      var t :| floor <= t && IsNewest(I, e.key.userKey, t, e);
      NewestAtFloor(I, {}, e.key.userKey, t, floor, e);
      assert I + {} == I;
    }
  }

  /** When every snapshot sees all of the input, at most one version of each key survives. */
  lemma OneVersionSurvives(I: set<Entry>, floor: nat, base: UserKey -> bool, a: Entry, b: Entry)
    requires Unique(I) && forall e | e in I :: e.key.sequence <= floor
    requires a in Survivors(I, floor, base) && b in Survivors(I, floor, base) && SameUserKey(a, b)
    ensures a == b
  {
    assert a in I && b in I && SameUserKey(b, a);
  }
}

/** Laws of the Record map: how reads see writes, how null differs from
    absence, and what the bulk operations keep. */
module RecordLaws {
  import opened Wrappers
  import opened Records

  /* ---------------------------------------------------------------------
     Reads after writes
     --------------------------------------------------------------------- */

  /** Two storages with the same entries for `k` agree on `k`'s slot. */
  lemma LookupByMembers<T(!new)>(s: Storage<T>, s': Storage<T>, k: string)
    requires forall x :: (k, x) in s <==> (k, x) in s'
    ensures Lookup(s, k) == Lookup(s', k)
  {
    MembersHaveKeys(s);
    MembersHaveKeys(s');
    if HasKey(s, k) {
      assert (k, s[IndexOf(s, k)].1) in s;
    }
    if HasKey(s', k) {
      assert (k, s'[IndexOf(s', k)].1) in s';
    }
  }

  /** The stored slot of every key after `setProperty(k, v)`: `k` holds `v`,
      every other key holds what it held before. */
  lemma LookupAfterSet<T(!new)>(r: Record<T>, k: string, v: Option<T>, k2: string)
    ensures Lookup(SetProperty(r, k, v).props, k2) == if k2 == k then Some(v) else Lookup(r.props, k2)
  {
    var s, s' := r.props, SetProperty(r, k, v).props;
    if HasKey(s, k) {
      var i := IndexOf(s, k);
      assert s'[i] == (k, v);
      if k2 != k {
        ReplaceKeepsOthers(s, i, (k, v), k2);
        LookupByMembers(s, s', k2);
      }
    } else {
      assert s'[|s|] == (k, v);
      if k2 != k {
        LookupByMembers(s, s', k2);
      }
    }
  }

  /** Replacing an entry of another key keeps every entry of `k2`. */
  lemma ReplaceKeepsOthers<X>(s: seq<(string, X)>, i: int, e: (string, X), k2: string)
    requires 0 <= i < |s| && s[i].0 != k2 && e.0 != k2
    ensures forall x :: (k2, x) in s <==> (k2, x) in s[i := e]
  {
    var s' := s[i := e];
    forall x ensures (k2, x) in s <==> (k2, x) in s' {
      if (k2, x) in s {
        var j :| 0 <= j < |s| && s[j] == (k2, x);
        assert s'[j] == s[j];
      }
      if (k2, x) in s' {
        var j :| 0 <= j < |s'| && s'[j] == (k2, x);
        assert s[j] == s'[j];
      }
    }
  }

  /** `getProperty` reads back what `setProperty` wrote, and the key is then
      present, even when the value written was null. */
  lemma GetAfterSet<T(!new)>(r: Record<T>, k: string, v: Option<T>)
    ensures GetProperty(SetProperty(r, k, v), k) == v
    ensures HasProperty(SetProperty(r, k, v), k)
  {
    LookupAfterSet(r, k, v, k);
  }

  /** Writing one key leaves every other key as it was. */
  lemma SetLeavesOthers<T(!new)>(r: Record<T>, k: string, v: Option<T>, k2: string)
    requires k2 != k
    ensures GetProperty(SetProperty(r, k, v), k2) == GetProperty(r, k2)
    ensures HasProperty(SetProperty(r, k, v), k2) == HasProperty(r, k2)
  {
    LookupAfterSet(r, k, v, k2);
  }

  /** Overwriting keeps the key order; a new key goes to the end. */
  lemma SetKeyOrder<T(!new)>(r: Record<T>, k: string, v: Option<T>)
    ensures HasProperty(r, k) ==> Keys(SetProperty(r, k, v).props) == Keys(r.props)
    ensures !HasProperty(r, k) ==> Keys(SetProperty(r, k, v).props) == Keys(r.props) + [k]
  {
  }

  /* ---------------------------------------------------------------------
     Null versus absent
     --------------------------------------------------------------------- */

  /** A key holding null is visible to `hasProperty` but to nothing else:
      `getProperty` gives null, `getProperties` leaves it out, and
      `removeProperty` refuses to delete it. */
  lemma NullValuedKey<T(!new)>(r: Record<T>, k: string)
    requires Lookup(r.props, k) == Some(None)
    ensures HasProperty(r, k)
    ensures GetProperty(r, k) == None
    ensures !HasKey(GetProperties(r), k)
    ensures RemoveProperty(r, k) == r
  {
    var p := GetProperties(r);
    forall i | 0 <= i < |p| ensures p[i].0 != k {
      assert (p[i].0, p[i].1) in p;
      assert Lookup(r.props, p[i].0) == Some(Some(p[i].1));
    }
  }

  /** Through `getProperty` an absent key and a null-valued key read alike;
      only `hasProperty` tells them apart. */
  lemma NullAndAbsentReadAlike<T(!new)>(r: Record<T>, k: string)
    requires !HasProperty(r, k)
    ensures GetProperty(SetProperty(r, k, None), k) == GetProperty(r, k) == None
    ensures HasProperty(SetProperty(r, k, None), k)
  {
    GetAfterSet(r, k, None);
  }

  /** Removing a freshly added non-null key gives back the original record. */
  lemma RemoveUndoesSet<T(!new)>(r: Record<T>, k: string, v: T)
    requires !HasProperty(r, k)
    ensures RemoveProperty(SetProperty(r, k, Some(v)), k) == r
  {
    var r' := SetProperty(r, k, Some(v));
    GetAfterSet(r, k, Some(v));
    assert IsSet(r', k);
    IndexOfUnique(r'.props, k, |r.props|);
    assert r'.props[..|r.props|] == r.props;
  }

  /** `removeProperty` leaves every other key as it was. */
  lemma RemoveLeavesOthers<T(!new)>(r: Record<T>, k: string, k2: string)
    requires k2 != k
    ensures Lookup(RemoveProperty(r, k).props, k2) == Lookup(r.props, k2)
  {
    if IsSet(r, k) {
      var s, s' := r.props, RemoveProperty(r, k).props;
      var i := IndexOf(s, k);
      DropKeepsOthers(s, i, k2);
      LookupByMembers(s, s', k2);
    }
  }

  /** Dropping the entry at `i` keeps every entry of another key. */
  lemma DropKeepsOthers<X>(s: seq<(string, X)>, i: int, k2: string)
    requires 0 <= i < |s| && s[i].0 != k2
    ensures forall x :: (k2, x) in s <==> (k2, x) in s[..i] + s[i + 1..]
  {
    var d := s[..i] + s[i + 1..];
    forall x ensures (k2, x) in s <==> (k2, x) in d {
      if (k2, x) in s {
        var j :| 0 <= j < |s| && s[j] == (k2, x);
        assert j != i;
        if j < i {
          assert d[j] == s[j];
        } else {
          assert d[j - 1] == s[j];
        }
      }
      if (k2, x) in d {
        var j :| 0 <= j < |d| && d[j] == (k2, x);
        if j < i {
          assert s[j] == d[j];
        } else {
          assert s[j + 1] == d[j];
        }
      }
    }
  }

  /** `isEmpty` counts null-valued keys: an empty record has an empty
      snapshot, but a record holding only nulls is not empty. */
  lemma EmptyMeansNoSnapshot<T(!new)>(r: Record<T>)
    ensures IsEmpty(r) ==> GetProperties(r) == []
  {
  }

  lemma NullOnlyRecordIsNotEmpty<T(!new)>(r: Record<T>)
    requires r.props != []
    requires forall i :: 0 <= i < |r.props| ==> r.props[i].1 == None
    ensures !IsEmpty(r)
    ensures GetProperties(r) == []
  {
    NonNullOfNulls(r.props);
  }

  lemma {:induction false} NonNullOfNulls<T(!new)>(s: seq<(string, Option<T>)>)
    requires forall i :: 0 <= i < |s| ==> s[i].1 == None
    ensures NonNull(s) == []
  {
    if s != [] {
      NonNullOfNulls(s[1..]);
    }
  }

  /* ---------------------------------------------------------------------
     Snapshots
     --------------------------------------------------------------------- */

  /** Lifting a null-free snapshot into storage and taking the non-null
      entries again gives the snapshot back. */
  lemma {:induction false} NonNullOfLift<T(!new)>(p: seq<(string, T)>)
    ensures NonNull(Lift(p)) == p
  {
    if p != [] {
      NonNullOfLift(p[1..]);
      assert Lift(p)[1..] == Lift(p[1..]);
    }
  }

  /** `getProperty` agrees with the snapshot `getProperties` returns. */
  lemma GetPropertyMatchesSnapshot<T(!new)>(r: Record<T>, k: string, v: T)
    ensures GetProperty(r, k) == Some(v) <==> (k, v) in GetProperties(r)
  {
  }

  /* ---------------------------------------------------------------------
     Filter and map
     --------------------------------------------------------------------- */

  /** `map` keeps the set of keys, null-valued ones included. */
  lemma MapKeepsKeys<T(!new)>(r: Record<T>, f: Option<T> -> Option<T>, k: string)
    ensures HasProperty(MapValues(r, f), k) <==> HasProperty(r, k)
  {
    var s, s' := r.props, MapValues(r, f).props;
    MembersHaveKeys(s);
    MembersHaveKeys(s');
    if HasKey(s, k) {
      var i := IndexOf(s, k);
      assert (k, s'[i].1) in s';
      assert (k, s[i].1) in s;
    }
    if HasKey(s', k) {
      var i := IndexOf(s', k);
      assert s'[i].0 == s[i].0;
      assert (k, s[i].1) in s;
      assert (k, s'[i].1) in s';
    }
  }

  /** After `filter`, the snapshot holds exactly the non-null entries whose
      value passed the predicate. */
  lemma FilterSnapshot<T(!new)>(r: Record<T>, keep: Option<T> -> bool, k: string, v: T)
    ensures (k, v) in GetProperties(Filter(r, keep)) <==> (k, v) in GetProperties(r) && keep(Some(v))
  {
  }
}

/** The access layer every Record shares: array-style and property-style
    access delegate to the named operations, iteration walks the
    `getProperties` snapshot, and both serialised forms carry exactly that
    snapshot. */
module RecordAccess {
  import opened Wrappers
  import opened Records
  import RecordLaws

  /* ---------------------------------------------------------------------
     Array-style access: `$record[k]`
     --------------------------------------------------------------------- */

  function OffsetGet<T(!new)>(r: Record<T>, k: string): (v: Option<T>)
    ensures v == GetProperty(r, k)
    ensures !HasProperty(r, k) ==> v == None
  {
    GetProperty(r, k)
  }

  function OffsetSet<T(!new)>(r: Record<T>, k: string, v: Option<T>): (r': Record<T>)
    ensures r' == SetProperty(r, k, v)
    ensures OffsetGet(r', k) == v && OffsetExists(r', k)
  {
    RecordLaws.GetAfterSet(r, k, v);
    SetProperty(r, k, v)
  }

  function OffsetExists<T(!new)>(r: Record<T>, k: string): (b: bool)
    ensures b == HasProperty(r, k)
    ensures b <==> exists x :: (k, x) in r.props
  {
    HasProperty(r, k)
  }

  function OffsetUnset<T(!new)>(r: Record<T>, k: string): (r': Record<T>)
    ensures r' == RemoveProperty(r, k)
    ensures OffsetGet(r', k) == None
  {
    RemoveProperty(r, k)
  }

  /* ---------------------------------------------------------------------
     Property-style access: `$record->k`
     --------------------------------------------------------------------- */

  function MagicGet<T(!new)>(r: Record<T>, k: string): (v: Option<T>)
    ensures v == OffsetGet(r, k)
    ensures !HasProperty(r, k) ==> v == None
  {
    GetProperty(r, k)
  }

  function MagicSet<T(!new)>(r: Record<T>, k: string, v: Option<T>): (r': Record<T>)
    ensures r' == OffsetSet(r, k, v)
    ensures MagicGet(r', k) == v && MagicIsset(r', k)
  {
    RecordLaws.GetAfterSet(r, k, v);
    SetProperty(r, k, v)
  }

  function MagicIsset<T(!new)>(r: Record<T>, k: string): (b: bool)
    ensures b == OffsetExists(r, k)
    ensures b <==> exists x :: (k, x) in r.props
  {
    HasProperty(r, k)
  }

  function MagicUnset<T(!new)>(r: Record<T>, k: string): (r': Record<T>)
    ensures r' == OffsetUnset(r, k)
    ensures MagicGet(r', k) == None
  {
    RemoveProperty(r, k)
  }

  /* ---------------------------------------------------------------------
     Iteration
     --------------------------------------------------------------------- */

  /** `getIterator`: the pairs a `foreach` over the record visits, in order. */
  function GetIterator<T(!new)>(r: Record<T>): (items: seq<(string, T)>)
    ensures forall k, v :: (k, v) in items <==> (k, Some(v)) in r.props
    ensures IsSubsequence(Lift(items), r.props)
    ensures UniqueKeys(items)
  {
    GetProperties(r)
  }

  /** Iteration skips a null-valued key that `hasProperty` still reports. */
  lemma IterationSkipsNull<T(!new)>(r: Record<T>, k: string)
    requires Lookup(r.props, k) == Some(None)
    ensures HasProperty(r, k) && OffsetExists(r, k)
    ensures !HasKey(GetIterator(r), k)
  {
    RecordLaws.NullValuedKey(r, k);
  }

  /* ---------------------------------------------------------------------
     Serialisation
     --------------------------------------------------------------------- */

  /** The payload of PHP's `serialize` on a record; the byte encoding itself
      is not modelled. */
  datatype Serialized<T> = Serialized(entries: Plain<T>)

  function Serialize<T(!new)>(r: Record<T>): (data: Serialized<T>)
    ensures forall k, v :: (k, v) in data.entries <==> (k, Some(v)) in r.props
  {
    Serialized(GetProperties(r))
  }

  /** `unserialize`: the whole storage is replaced by the payload, so nothing
      of the receiving record's prior state survives. */
  function Unserialize<T(!new)>(r: Record<T>, data: Serialized<T>): (r': Record<T>)
    ensures GetProperties(r') == data.entries
    ensures forall k :: HasProperty(r', k) <==> HasKey(data.entries, k)
  {
    LiftUnique(data.entries);
    RecordLaws.NonNullOfLift(data.entries);
    var r' := SetProperties(r, Lift(data.entries));
    assert forall k :: HasProperty(r', k) <==> HasKey(data.entries, k) by {
      MembersHaveKeys(r'.props);
      MembersHaveKeys(data.entries);
      forall k ensures HasProperty(r', k) <==> HasKey(data.entries, k) {
        if HasKey(data.entries, k) {
          var i := IndexOf(data.entries, k);
          assert r'.props[i] == (k, Some(data.entries[i].1));
        }
        if HasProperty(r', k) {
          var x :| (k, x) in r'.props;
          var i :| 0 <= i < |r'.props| && r'.props[i] == (k, x);
          assert data.entries[i].0 == k;
        }
      }
    }
    r'
  }

  /** The serialisation round trip keeps exactly the non-null entries, in
      order: null-valued keys are lost. */
  lemma SerializeRoundTrip<T(!new)>(r: Record<T>, target: Record<T>)
    ensures Unserialize(target, Serialize(r)).props == Lift(GetProperties(r))
    ensures GetProperties(Unserialize(target, Serialize(r))) == GetProperties(r)
  {
  }

  /** The round trip gives back the very same record exactly when the record
      holds no null value. */
  lemma {:induction false} SerializeRoundTripExact<T(!new)>(r: Record<T>, target: Record<T>)
    ensures Unserialize(target, Serialize(r)) == r <==>
              forall i :: 0 <= i < |r.props| ==> r.props[i].1.Some?
  {
    var back := Unserialize(target, Serialize(r));
    if forall i :: 0 <= i < |r.props| ==> r.props[i].1.Some? {
      LiftOfNonNull(r.props);
    } else {
      var i :| 0 <= i < |r.props| && r.props[i].1.None?;
      var k := r.props[i].0;
      assert Lookup(r.props, k) == Some(None) by {
        assert (k, r.props[i].1) in r.props;
      }
      RecordLaws.NullValuedKey(r, k);
      assert HasProperty(r, k);
      assert !HasProperty(back, k);
    }
  }

  lemma {:induction false} LiftOfNonNull<T(!new)>(s: seq<(string, Option<T>)>)
    requires forall i :: 0 <= i < |s| ==> s[i].1.Some?
    ensures Lift(NonNull(s)) == s
  {
    if s != [] {
      LiftOfNonNull(s[1..]);
      assert s == [s[0]] + s[1..];
      assert Lift(NonNull(s)) == [s[0]] + Lift(NonNull(s[1..]));
    }
  }

  /* ---------------------------------------------------------------------
     JSON
     --------------------------------------------------------------------- */

  /** A JSON object, members in order; the text encoding is not modelled. */
  datatype Json<T> = JsonObject(members: Plain<T>)

  /** `jsonSerialize`: an object whose members are exactly the non-null
      entries. */
  function JsonSerialize<T(!new)>(r: Record<T>): (j: Json<T>)
    ensures forall k, v :: (k, v) in j.members <==> (k, Some(v)) in r.props
    ensures IsSubsequence(Lift(j.members), r.props)
  {
    JsonObject(GetProperties(r))
  }

  /** An empty record, and a record holding only nulls, encode as `{}`. */
  lemma EmptyJson<T(!new)>(r: Record<T>)
    requires forall i :: 0 <= i < |r.props| ==> r.props[i].1 == None
    ensures JsonSerialize(r) == JsonObject([])
  {
    RecordLaws.NonNullOfNulls(r.props);
  }
}

/** The Record ordered map: an insertion-ordered association from string keys
    to nullable values. A stored `None` is PHP's `null`, which makes a key
    "present with no value": `HasProperty` sees it, while `GetProperties`
    (and so iteration, serialisation and JSON) hides it. */
module Records {
  import opened Wrappers

  /** No key occurs twice (a PHP array's keys are unique). */
  predicate UniqueKeys<X>(s: seq<(string, X)>) {
    forall i, j | 0 <= i < j < |s| :: s[i].0 != s[j].0
  }

  /** The storage of a Record: ordered entries with nullable values. */
  type Storage<T> = s: seq<(string, Option<T>)> | UniqueKeys(s) witness []

  /** A null-free snapshot, as `getProperties` returns it. */
  type Plain<T> = s: seq<(string, T)> | UniqueKeys(s) witness []

  datatype Record<T> = Record(props: Storage<T>)

  predicate HasKey<X>(s: seq<(string, X)>, k: string) {
    exists i | 0 <= i < |s| :: s[i].0 == k
  }

  function Keys<X>(s: seq<(string, X)>): (ks: seq<string>)
    ensures |ks| == |s|
    ensures forall i :: 0 <= i < |s| ==> ks[i] == s[i].0
  {
    seq(|s|, i requires 0 <= i < |s| => s[i].0)
  }

  /** The position of the first entry with key `k`. */
  function IndexOf<X>(s: seq<(string, X)>, k: string): (i: nat)
    requires HasKey(s, k)
    ensures i < |s| && s[i].0 == k
    ensures forall j :: 0 <= j < i ==> s[j].0 != k
  {
    if s[0].0 == k then 0
    else
      assert HasKey(s[1..], k) by {
        var j :| 0 <= j < |s| && s[j].0 == k;
        assert s[1..][j - 1].0 == k;
      }
      1 + IndexOf(s[1..], k)
  }

  /** With unique keys, the entry carrying `k` is the one at `IndexOf`. */
  lemma IndexOfUnique<X>(s: seq<(string, X)>, k: string, j: int)
    requires UniqueKeys(s)
    requires 0 <= j < |s| && s[j].0 == k
    ensures HasKey(s, k) && IndexOf(s, k) == j
  {
  }

  /** The key of every stored entry is present. */
  lemma MembersHaveKeys<X(!new)>(s: seq<(string, X)>)
    ensures forall k, x :: (k, x) in s ==> HasKey(s, k)
  {
    forall k, x | (k, x) in s ensures HasKey(s, k) {
      var j :| 0 <= j < |s| && s[j] == (k, x);
      assert s[j].0 == k;
    }
  }

  /** Every entry of a null-free snapshot, as a storage entry. */
  function Lift<T(!new)>(p: seq<(string, T)>): (s: seq<(string, Option<T>)>)
    ensures |s| == |p|
    ensures forall i :: 0 <= i < |p| ==> s[i] == (p[i].0, Some(p[i].1))
  {
    seq(|p|, i requires 0 <= i < |p| => (p[i].0, Some(p[i].1)))
  }

  /** `a` is `b` with some entries left out, the rest in the same order. */
  ghost predicate IsSubsequence<X>(a: seq<X>, b: seq<X>)
    decreases |b|
  {
    || a == []
    || (&& b != []
        && ((a[0] == b[0] && IsSubsequence(a[1..], b[1..])) || IsSubsequence(a, b[1..])))
  }

  /* ---------------------------------------------------------------------
     Reading
     --------------------------------------------------------------------- */

  /** The non-null entries of `s`, in storage order. */
  function NonNull<T(!new)>(s: seq<(string, Option<T>)>): (p: seq<(string, T)>)
    ensures forall k, v :: (k, v) in p <==> (k, Some(v)) in s
    ensures IsSubsequence(Lift(p), s)
  {
    if s == [] then []
    else
      var rest := NonNull(s[1..]);
      assert s == [s[0]] + s[1..];
      match s[0].1
      case None => rest
      case Some(v) =>
        var p := [(s[0].0, v)] + rest;
        assert Lift(p)[1..] == Lift(rest);
        p
  }

  /** The non-null entries of unique-keyed storage have unique keys. */
  lemma {:induction false} NonNullUnique<T(!new)>(s: seq<(string, Option<T>)>)
    requires UniqueKeys(s)
    ensures UniqueKeys(NonNull(s))
  {
    if s != [] {
      var s1 := s[1..];
      var rest := NonNull(s1);
      NonNullUnique(s1);
      if s[0].1.Some? {
        forall i | 0 <= i < |rest| ensures rest[i].0 != s[0].0 {
          var (k, v) := rest[i];
          assert (k, v) in rest;
          assert (k, Some(v)) in s1;
          var j :| 0 <= j < |s1| && s1[j] == (k, Some(v));
          assert s[j + 1].0 == k;
        }
        ConsUnique((s[0].0, s[0].1.value), rest);
      }
    }
  }

  /** `getProperties`: exactly the stored entries whose value is not null,
      in storage order. */
  function GetProperties<T(!new)>(r: Record<T>): (p: Plain<T>)
    ensures forall k, v :: (k, v) in p <==> (k, Some(v)) in r.props
    ensures IsSubsequence(Lift(p), r.props)
  {
    NonNullUnique(r.props);
    NonNull(r.props)
  }

  /** A plain snapshot seen as storage keeps its unique keys. */
  lemma LiftUnique<T(!new)>(p: Plain<T>)
    ensures UniqueKeys(Lift(p))
  {
  }

  /** `setProperties`: the storage is replaced wholesale. */
  function SetProperties<T(!new)>(r: Record<T>, props: Storage<T>): (r': Record<T>)
    ensures forall k :: HasKey(r'.props, k) <==> HasKey(props, k)
    ensures r'.props == props
  {
    Record(props)
  }

  /** The stored slot of `k`: None when the key is absent, Some(None) when it
      is present with a null value. */
  function Lookup<T(!new)>(s: Storage<T>, k: string): (slot: Option<Option<T>>)
    ensures slot.Some? <==> HasKey(s, k)
    ensures forall x :: slot == Some(x) <==> (k, x) in s
  {
    MembersHaveKeys(s);
    if HasKey(s, k) then
      assert forall x :: (k, x) in s ==> x == s[IndexOf(s, k)].1 by {
        forall x | (k, x) in s ensures x == s[IndexOf(s, k)].1 {
          var j :| 0 <= j < |s| && s[j] == (k, x);
          IndexOfUnique(s, k, j);
        }
      }
      Some(s[IndexOf(s, k)].1)
    else
      None
  }

  /** `getProperty`: the stored value when it is non-null, null otherwise, so
      an absent key and a null-valued key read the same. */
  function GetProperty<T(!new)>(r: Record<T>, k: string): (v: Option<T>)
    ensures forall x :: v == Some(x) <==> (k, Some(x)) in r.props
    ensures v.None? <==> (Lookup(r.props, k) == None || Lookup(r.props, k) == Some(None))
  {
    match Lookup(r.props, k)
    case Some(Some(x)) => Some(x)
    case _ => None
  }

  /** `hasProperty`: the key is stored, whatever its value, null included. */
  function HasProperty<T(!new)>(r: Record<T>, k: string): (b: bool)
    ensures b <==> exists x :: (k, x) in r.props
  {
    var slot := Lookup(r.props, k);
    assert slot.Some? ==> (k, slot.value) in r.props;
    slot.Some?
  }

  /** PHP's `$value !== null`. */
  predicate NotNull<T>(v: Option<T>) {
    v.Some?
  }

  /** PHP's `isset($properties[k])`: present with a non-null value. */
  predicate IsSet<T(!new)>(r: Record<T>, k: string) {
    GetProperty(r, k).Some?
  }

  /** `isEmpty`: no key is stored, counting null-valued ones. */
  function IsEmpty<T(!new)>(r: Record<T>): (b: bool)
    ensures b <==> forall k :: !HasProperty(r, k)
  {
    if r.props == [] then true
    else
      assert HasProperty(r, r.props[0].0) by {
        assert (r.props[0].0, r.props[0].1) in r.props;
      }
      false
  }

  /* ---------------------------------------------------------------------
     Writing
     --------------------------------------------------------------------- */

  /** PHP `$a[k] = v` on an ordered array. */
  function Put<T(!new)>(s: Storage<T>, k: string, v: Option<T>): (r: Storage<T>)
    ensures HasKey(s, k) ==> r == s[IndexOf(s, k) := (k, v)]
    ensures !HasKey(s, k) ==> r == s + [(k, v)]
  {
    if s == [] then [(k, v)]
    else if s[0].0 == k then
      assert s[IndexOf(s, k) := (k, v)] == [(k, v)] + s[1..];
      [(k, v)] + s[1..]
    else
      var tail := Put(s[1..], k, v);
      PutCons(s, k, v, tail);
      [s[0]] + tail
  }

  /** Past a first entry with another key, presence and position of `k` are
      those in the rest. */
  lemma HasKeyCons<X>(s: seq<(string, X)>, k: string)
    requires s != [] && s[0].0 != k
    ensures HasKey(s, k) <==> HasKey(s[1..], k)
    ensures HasKey(s, k) ==> IndexOf(s, k) == 1 + IndexOf(s[1..], k)
  {
    if HasKey(s, k) {
      var j :| 0 <= j < |s| && s[j].0 == k;
      assert s[1..][j - 1].0 == k;
    }
    if HasKey(s[1..], k) {
      var j :| 0 <= j < |s[1..]| && s[1..][j].0 == k;
      assert s[j + 1].0 == k;
    }
  }

  /** The recursive step of `Put`: writing into the rest and putting the
      first entry back. */
  lemma {:induction false} PutCons<T>(s: Storage<T>, k: string, v: Option<T>, tail: seq<(string, Option<T>)>)
    requires s != [] && s[0].0 != k
    requires HasKey(s[1..], k) ==> tail == s[1..][IndexOf(s[1..], k) := (k, v)]
    requires !HasKey(s[1..], k) ==> tail == s[1..] + [(k, v)]
    ensures UniqueKeys([s[0]] + tail)
    ensures HasKey(s, k) ==> [s[0]] + tail == s[IndexOf(s, k) := (k, v)]
    ensures !HasKey(s, k) ==> [s[0]] + tail == s + [(k, v)]
  {
    var s1 := s[1..];
    HasKeyCons(s, k);
    if HasKey(s1, k) {
      var x := IndexOf(s1, k);
      assert [s[0]] + s1[x := (k, v)] == s[1 + x := (k, v)];
      ReplaceUnique(s, 1 + x, v);
    } else {
      assert [s[0]] + (s1 + [(k, v)]) == s + [(k, v)];
      AppendUnique(s, k, v);
    }
  }

  /** Putting an entry with a fresh key in front keeps the keys unique. */
  lemma ConsUnique<X>(e: (string, X), s: seq<(string, X)>)
    requires UniqueKeys(s)
    requires forall i :: 0 <= i < |s| ==> s[i].0 != e.0
    ensures UniqueKeys([e] + s)
  {
    var r := [e] + s;
    forall i, j | 0 <= i < j < |r| ensures r[i].0 != r[j].0 {
      assert r[j] == s[j - 1];
      if i > 0 {
        assert r[i] == s[i - 1];
      }
    }
  }

  /** Overwriting the value of an entry keeps the keys unique. */
  lemma ReplaceUnique<X>(s: seq<(string, X)>, i: int, v: X)
    requires UniqueKeys(s) && 0 <= i < |s|
    ensures UniqueKeys(s[i := (s[i].0, v)])
  {
    var r := s[i := (s[i].0, v)];
    assert forall j :: 0 <= j < |s| ==> r[j].0 == s[j].0;
  }

  /** Appending an entry under a new key keeps the keys unique. */
  lemma AppendUnique<X>(s: seq<(string, X)>, k: string, v: X)
    requires UniqueKeys(s) && !HasKey(s, k)
    ensures UniqueKeys(s + [(k, v)])
  {
    var r := s + [(k, v)];
    forall i, j | 0 <= i < j < |r| ensures r[i].0 != r[j].0 {
      assert r[i] == s[i];
      if j < |s| {
        assert r[j] == s[j];
      }
    }
  }

  /** `setProperty`: a new key is appended at the end; an existing key has
      its value overwritten in place, keeping its position. Nothing else
      changes in either case. */
  function SetProperty<T(!new)>(r: Record<T>, k: string, v: Option<T>): (r': Record<T>)
    ensures HasProperty(r, k) ==> r'.props == r.props[IndexOf(r.props, k) := (k, v)]
    ensures !HasProperty(r, k) ==> r'.props == r.props + [(k, v)]
  {
    assert HasProperty(r, k) <==> HasKey(r.props, k);
    Record(Put(r.props, k, v))
  }

  /** PHP `unset($a[k])`: the entry with key `k` is dropped. */
  function Delete<T(!new)>(s: Storage<T>, k: string): (r: Storage<T>)
    ensures HasKey(s, k) ==> r == s[..IndexOf(s, k)] + s[IndexOf(s, k) + 1..]
    ensures !HasKey(s, k) ==> r == s
  {
    if s == [] then []
    else if s[0].0 == k then s[1..]
    else
      var tail := Delete(s[1..], k);
      DeleteCons(s, k, tail);
      [s[0]] + tail
  }

  /** The recursive step of `Delete`: deleting from the rest and putting the
      first entry back. */
  lemma {:induction false} DeleteCons<T>(s: Storage<T>, k: string, tail: seq<(string, Option<T>)>)
    requires s != [] && s[0].0 != k
    requires HasKey(s[1..], k) ==> tail == s[1..][..IndexOf(s[1..], k)] + s[1..][IndexOf(s[1..], k) + 1..]
    requires !HasKey(s[1..], k) ==> tail == s[1..]
    ensures UniqueKeys([s[0]] + tail)
    ensures HasKey(s, k) ==> [s[0]] + tail == s[..IndexOf(s, k)] + s[IndexOf(s, k) + 1..]
    ensures !HasKey(s, k) ==> [s[0]] + tail == s
  {
    var s1 := s[1..];
    HasKeyCons(s, k);
    if HasKey(s1, k) {
      var x := IndexOf(s1, k);
      DropShift(s, x);
      DropUnique(s, 1 + x);
    } else {
      assert [s[0]] + s1 == s;
    }
  }

  /** Dropping an entry of the rest, then putting the first entry back. */
  lemma DropShift<X>(s: seq<X>, x: int)
    requires 0 <= x < |s| - 1
    ensures [s[0]] + (s[1..][..x] + s[1..][x + 1..]) == s[..1 + x] + s[1 + x + 1..]
  {
    assert s[..1 + x] == [s[0]] + s[1..][..x];
    assert s[1 + x + 1..] == s[1..][x + 1..];
  }

  /** Dropping one entry keeps the keys unique. */
  lemma DropUnique<X>(s: seq<(string, X)>, x: int)
    requires UniqueKeys(s) && 0 <= x < |s|
    ensures UniqueKeys(s[..x] + s[x + 1..])
  {
    var r := s[..x] + s[x + 1..];
    forall i, j | 0 <= i < j < |r| ensures r[i].0 != r[j].0 {
      var i', j' := if i < x then i else i + 1, if j < x then j else j + 1;
      assert r[i] == s[i'] && r[j] == s[j'];
    }
  }

  /** `removeProperty`: the key is deleted only when it holds a non-null
      value; an absent key and a null-valued key are left as they are. The
      other entries keep their order. */
  function RemoveProperty<T(!new)>(r: Record<T>, k: string): (r': Record<T>)
    ensures IsSet(r, k) ==>
              && !HasProperty(r', k)
              && r'.props == r.props[..IndexOf(r.props, k)] + r.props[IndexOf(r.props, k) + 1..]
    ensures !IsSet(r, k) ==> r' == r
  {
    if IsSet(r, k) then
      assert HasKey(r.props, k);
      var d := Delete(r.props, k);
      DropRemovesKey(r.props, k);
      MembersHaveKeys(d);
      Record(d)
    else r
  }

  /** With unique keys, dropping the entry of `k` leaves no entry of `k`. */
  lemma DropRemovesKey<X>(s: seq<(string, X)>, k: string)
    requires UniqueKeys(s) && HasKey(s, k)
    ensures !HasKey(s[..IndexOf(s, k)] + s[IndexOf(s, k) + 1..], k)
  {
    var x := IndexOf(s, k);
    var d := s[..x] + s[x + 1..];
    forall i | 0 <= i < |d| ensures d[i].0 != k {
      if i < x {
        assert d[i] == s[i];
      } else {
        assert d[i] == s[i + 1];
      }
    }
  }

  /* ---------------------------------------------------------------------
     Bulk operations
     --------------------------------------------------------------------- */

  /** `filter`: keeps exactly the entries whose value passes `keep` (null
      values are offered to `keep` too), in their original relative order. */
  function Filter<T(!new)>(r: Record<T>, keep: Option<T> -> bool): (r': Record<T>)
    ensures forall k, v :: (k, v) in r'.props <==> (k, v) in r.props && keep(v)
    ensures IsSubsequence(r'.props, r.props)
  {
    Record(FilterEntries(r.props, keep))
  }

  function FilterEntries<T(!new)>(s: Storage<T>, keep: Option<T> -> bool): (r: Storage<T>)
    ensures forall k, v :: (k, v) in r <==> (k, v) in s && keep(v)
    ensures IsSubsequence(r, s)
  {
    if s == [] then []
    else
      var s1: Storage<T> := s[1..];
      var rest := FilterEntries(s1, keep);
      assert s == [s[0]] + s1;
      if keep(s[0].1) then
        assert forall i :: 0 <= i < |rest| ==> rest[i].0 != s[0].0 by {
          forall i | 0 <= i < |rest| ensures rest[i].0 != s[0].0 {
            var (k, v) := rest[i];
            assert (k, v) in rest;
            assert (k, v) in s1;
            var j :| 0 <= j < |s1| && s1[j] == (k, v);
            assert s[j + 1] == s1[j];
          }
        }
        var r := [s[0]] + rest;
        assert r[1..] == rest;
        r
      else rest
  }

  /** `map`: every value replaced by `f(value)`; same keys, same order. */
  function MapValues<T(!new)>(r: Record<T>, f: Option<T> -> Option<T>): (r': Record<T>)
    ensures Keys(r'.props) == Keys(r.props)
    ensures forall i :: 0 <= i < |r.props| ==> r'.props[i].1 == f(r.props[i].1)
  {
    Record(MapEntries(r.props, f))
  }

  function MapEntries<T(!new)>(s: Storage<T>, f: Option<T> -> Option<T>): (r: Storage<T>)
    ensures |r| == |s|
    ensures forall i :: 0 <= i < |s| ==> r[i] == (s[i].0, f(s[i].1))
  {
    if s == [] then []
    else
      var s1: Storage<T> := s[1..];
      var rest := MapEntries(s1, f);
      assert forall i :: 0 <= i < |rest| ==> rest[i].0 != s[0].0 by {
        forall i | 0 <= i < |rest| ensures rest[i].0 != s[0].0 {
          assert rest[i].0 == s[i + 1].0;
        }
      }
      [(s[0].0, f(s[0].1))] + rest
  }
}

/** How a record is built: `merge` folds `setProperty` over a source, and
    the constructor and the named constructors `fromArray`, `fromStdClass`,
    `from` and `__set_state` all start from an empty record and merge. */
module RecordConstruction {
  import opened Wrappers
  import opened Records
  import RecordLaws

  /** The value the last pair with key `k` carries in `src`, if any. */
  function LastIn<T(!new)>(src: seq<(string, Option<T>)>, k: string): (last: Option<Option<T>>)
    ensures last.Some? <==> HasKey(src, k)
    ensures last.Some? ==>
              exists i :: 0 <= i < |src| && src[i] == (k, last.value)
                          && forall j :: i < j < |src| ==> src[j].0 != k
    decreases |src|
  {
    if src == [] then None
    else
      var rest := LastIn(src[1..], k);
      assert HasKey(src, k) <==> src[0].0 == k || HasKey(src[1..], k) by {
        if HasKey(src, k) && src[0].0 != k {
          var j :| 0 <= j < |src| && src[j].0 == k;
          assert src[1..][j - 1].0 == k;
        }
        if HasKey(src[1..], k) {
          var j :| 0 <= j < |src[1..]| && src[1..][j].0 == k;
          assert src[j + 1].0 == k;
        }
      }
      if rest.Some? then
        assert exists i :: 0 <= i < |src| && src[i] == (k, rest.value)
                           && forall j :: i < j < |src| ==> src[j].0 != k by {
          var i :| 0 <= i < |src[1..]| && src[1..][i] == (k, rest.value)
                   && forall j :: i < j < |src[1..]| ==> src[1..][j].0 != k;
          assert src[i + 1] == (k, rest.value);
          forall j | i + 1 < j < |src| ensures src[j].0 != k {
            assert src[j] == src[1..][j - 1];
          }
        }
        rest
      else if src[0].0 == k then
        assert forall j :: 0 < j < |src| ==> src[j].0 != k by {
          forall j | 0 < j < |src| ensures src[j].0 != k {
            assert src[j] == src[1..][j - 1];
            assert !HasKey(src[1..], k);
          }
        }
        Some(src[0].1)
      else None
  }

  /** `merge`: `setProperty` applied to each source pair, in source order.
      Afterwards every key holds what the LAST source pair with that key
      carried, or its old slot when the source does not mention it; the keys
      already present keep their order, ahead of any new ones. */
  function Merge<T(!new)>(r: Record<T>, src: seq<(string, Option<T>)>): (r': Record<T>)
    ensures forall k :: Lookup(r'.props, k) ==
                          if LastIn(src, k).Some? then LastIn(src, k) else Lookup(r.props, k)
    ensures Keys(r.props) <= Keys(r'.props)
    decreases |src|
  {
    if src == [] then r
    else
      var r1 := SetProperty(r, src[0].0, src[0].1);
      var m := Merge(r1, src[1..]);
      assert forall k :: Lookup(m.props, k) ==
                           if LastIn(src, k).Some? then LastIn(src, k) else Lookup(r.props, k) by {
        forall k ensures Lookup(m.props, k) ==
                           if LastIn(src, k).Some? then LastIn(src, k) else Lookup(r.props, k) {
          RecordLaws.LookupAfterSet(r, src[0].0, src[0].1, k);
        }
      }
      RecordLaws.SetKeyOrder(r, src[0].0, src[0].1);
      m
  }

  /** `merge` is a left fold of `setProperty`: merging one more pair is
      merging the others and then setting that pair. Every key is therefore
      placed where `setProperty` first puts it, so a key new to the record
      keeps the position of its first occurrence in the source. */
  lemma {:induction false} MergeSnoc<T(!new)>(r: Record<T>, src: seq<(string, Option<T>)>, p: (string, Option<T>))
    ensures Merge(r, src + [p]) == SetProperty(Merge(r, src), p.0, p.1)
    decreases |src|
  {
    if src == [] {
      assert src + [p] == [p];
      assert [p][1..] == [];
    } else {
      assert (src + [p])[0] == src[0];
      assert (src + [p])[1..] == src[1..] + [p];
      MergeSnoc(SetProperty(r, src[0].0, src[0].1), src[1..], p);
    }
  }

  /** Merging the rest of a unique-keyed sequence into a record of its
      prefix rebuilds the whole sequence: with no repeated key every pair is
      appended in turn. */
  lemma {:induction false} MergeSuffix<T(!new)>(src: Storage<T>, i: nat)
    requires i <= |src|
    ensures Merge(Record(src[..i]), src[i..]) == Record(src)
    decreases |src| - i
  {
    if i < |src| {
      var pre: Storage<T> := src[..i];
      assert !HasKey(pre, src[i].0) by {
        forall j | 0 <= j < |pre| ensures pre[j].0 != src[i].0 {
          assert pre[j] == src[j];
        }
      }
      assert pre + [(src[i].0, src[i].1)] == src[..i + 1];
      assert src[i..][1..] == src[i + 1..];
      MergeSuffix(src, i + 1);
    } else {
      assert src[..i] == src;
    }
  }

  /** The constructor: an empty record merged with the source pairs. Each
      key holds the value of its last pair; a source without repeated keys
      is stored exactly, null values included. */
  function New<T(!new)>(src: seq<(string, Option<T>)>): (r: Record<T>)
    ensures forall k :: Lookup(r.props, k) == LastIn(src, k)
    ensures UniqueKeys(src) ==> r.props == src
  {
    var m := Merge(Record([]), src);
    assert UniqueKeys(src) ==> m.props == src by {
      if UniqueKeys(src) {
        var s: Storage<T> := src;
        MergeSuffix(s, 0);
        assert s[..0] == [] && s[0..] == s;
      }
    }
    m
  }

  /** The constructor is the same left fold: building from one more pair is
      building from the others and then setting that pair, so a repeated
      key stays where it first occurred and takes the later value. */
  lemma NewSnoc<T(!new)>(src: seq<(string, Option<T>)>, p: (string, Option<T>))
    ensures New(src + [p]) == SetProperty(New(src), p.0, p.1)
  {
    MergeSnoc(Record([]), src, p);
  }

  /** What a `foreach` over a construction source yields: the pairs of an
      array or generator, or the `getProperties` entries of a Record (a
      Record iterates over its non-null entries only). */
  datatype Source<T> = Pairs(pairs: seq<(string, Option<T>)>) | OfRecord(record: Record<T>)

  function Iterate<T(!new)>(src: Source<T>): (pairs: seq<(string, Option<T>)>)
    ensures src.Pairs? ==> pairs == src.pairs
    ensures src.OfRecord? ==> forall k, x :: (k, x) in pairs <==> x.Some? && (k, x) in src.record.props
    ensures src.OfRecord? ==> IsSubsequence(pairs, src.record.props)
  {
    match src
    case Pairs(ps) => ps
    case OfRecord(rec) =>
      var p := GetProperties(rec);
      assert forall k, x :: (k, x) in Lift(p) <==> x.Some? && (k, x) in rec.props by {
        forall k, x ensures (k, x) in Lift(p) <==> x.Some? && (k, x) in rec.props {
          if (k, x) in Lift(p) {
            var i :| 0 <= i < |Lift(p)| && Lift(p)[i] == (k, x);
            assert (k, x.value) == p[i];
          }
          if x.Some? && (k, x) in rec.props {
            assert (k, x.value) in p;
            var i :| 0 <= i < |p| && p[i] == (k, x.value);
            assert Lift(p)[i] == (k, x);
          }
        }
      }
      Lift(p)
  }

  /** `fromArray`: a record built from an iterable. An array or generator
      gives each key the value of its last pair; another record gives exactly
      its non-null entries, in order. */
  function FromArray<T(!new)>(data: Source<T>): (r: Record<T>)
    ensures data.Pairs? ==> forall k :: Lookup(r.props, k) == LastIn(data.pairs, k)
    ensures data.Pairs? && UniqueKeys(data.pairs) ==> r.props == data.pairs
    ensures data.OfRecord? ==> r.props == Lift(GetProperties(data.record))
  {
    if data.OfRecord? then
      LiftUnique(GetProperties(data.record));
      New(Iterate(data))
    else
      New(Iterate(data))
  }

  /** `fromStdClass`: a record built from an object's fields, taken in
      declaration order (the `(array)` cast); every field is kept, null-valued
      ones included. */
  function FromStdClass<T(!new)>(fields: Storage<T>): (r: Record<T>)
    ensures r.props == fields
    ensures forall k :: HasProperty(r, k) <==> HasKey(fields, k)
  {
    New(fields)
  }

  /** The kinds of value `from` may be handed. */
  datatype Input<T> =
    | IterableInput(source: Source<T>)
    | StdClassInput(fields: Storage<T>)
    | OtherInput

  datatype Error = InvalidArgument(message: string)

  /** `from`: an iterable goes through `fromArray`, a stdClass through
      `fromStdClass`; anything else is an invalid argument. */
  function From<T(!new)>(data: Input<T>): (r: Result<Record<T>, Error>)
    ensures data.IterableInput? ==> r == Success(FromArray(data.source))
    ensures data.StdClassInput? ==> r == Success(FromStdClass(data.fields))
    ensures r.Failure? <==> data.OtherInput?
  {
    match data
    case IterableInput(src) => Success(FromArray(src))
    case StdClassInput(fields) => Success(FromStdClass(fields))
    case OtherInput => Failure(InvalidArgument("Can create record only from iterable or stdClass"))
  }

  /** `__set_state`: a record built from the exported `properties` field, or
      an empty record when that field is missing or null. */
  function SetState<T(!new)>(properties: Option<seq<(string, Option<T>)>>): (r: Record<T>)
    ensures properties.None? ==> r.props == []
    ensures properties.Some? ==> forall k :: Lookup(r.props, k) == LastIn(properties.value, k)
  {
    New(properties.GetOr([]))
  }

  /** `var_export` followed by `__set_state` rebuilds the same record,
      null-valued keys included. */
  lemma SetStateRoundTrip<T(!new)>(r: Record<T>)
    ensures SetState(Some(r.props)) == r
  {
  }

  /** A record built `from` another record holds exactly the other record's
      non-null entries, in order. */
  lemma FromRecord<T(!new)>(r: Record<T>)
    ensures From(IterableInput(OfRecord(r))).Success?
    ensures GetProperties(From(IterableInput(OfRecord(r))).value) == GetProperties(r)
  {
    RecordLaws.NonNullOfLift(GetProperties(r));
  }
}

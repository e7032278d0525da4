/** Properties of the mapper: calls follow the source order, only non-null
    entries are seen, and which rule table entries can ever take effect. */
module MapperLaws {
  import opened Wrappers
  import opened Ascii
  import opened Records
  import opened Rules
  import opened Mapper
  import RecordLaws

  /** Mapping a concatenation of entries makes the calls of the first part,
      then those of the second: calls follow entry order, one entry at a
      time. */
  lemma {:induction false} DispatchAppend<T>(a: Row<T>, b: Row<T>, row: Row<T>, setters: set<string>, rules: RuleTable<T>)
    ensures Dispatch(a + b, row, setters, rules) == Dispatch(a, row, setters, rules) + Dispatch(b, row, setters, rules)
    decreases |a|
  {
    if a == [] {
      assert a + b == b;
    } else {
      assert (a + b)[0] == a[0];
      assert (a + b)[1..] == a[1..] + b;
      DispatchAppend(a[1..], b, row, setters, rules);
    }
  }

  /** Two rule tables that govern every entry alike make the same calls. */
  lemma {:induction false} DispatchSameRules<T>(entries: Row<T>, row: Row<T>, setters: set<string>, r1: RuleTable<T>, r2: RuleTable<T>)
    requires forall i :: 0 <= i < |entries| ==> RuleFor(r1, entries[i].0) == RuleFor(r2, entries[i].0)
    ensures Dispatch(entries, row, setters, r1) == Dispatch(entries, row, setters, r2)
    decreases |entries|
  {
    if entries != [] {
      assert RuleFor(r1, entries[0].0) == RuleFor(r2, entries[0].0);
      assert forall i :: 0 <= i < |entries[1..]| ==> entries[1..][i] == entries[i + 1];
      DispatchSameRules(entries[1..], row, setters, r1, r2);
    }
  }

  /** Because the table is consulted with the rewritten key, which never
      contains `_`, a rule stored under a key containing `_` never takes
      effect: dropping it changes nothing. */
  lemma UnderscoreRulesInert<T(!new)>(source: Record<T>, setters: set<string>, rules: RuleTable<T>, rk: string)
    requires '_' in rk
    ensures Map(source, setters, rules) == Map(source, setters, rules - {rk})
  {
    var data := GetProperties(source);
    forall i | 0 <= i < |data| ensures RuleFor(rules, data[i].0) == RuleFor(rules - {rk}, data[i].0) {
      assert NormalizeKey(data[i].0) != rk;
    }
    DispatchSameRules(data, data, setters, rules, rules - {rk});
  }

  /** A null entry in the rule table behaves as no entry at all. */
  lemma NullRuleIsNoRule<T(!new)>(source: Record<T>, setters: set<string>, rules: RuleTable<T>, k: string)
    ensures Map(source, setters, rules[k := NullEntry]) == Map(source, setters, rules - {k})
  {
    var data := GetProperties(source);
    DispatchSameRules(data, data, setters, rules[k := NullEntry], rules - {k});
  }

  /** Appending a null-valued entry leaves the non-null entries unchanged. */
  lemma {:induction false} NonNullAppendNull<T(!new)>(s: seq<(string, Option<T>)>, k: string)
    ensures NonNull(s + [(k, None)]) == NonNull(s)
  {
    if s == [] {
      assert NonNull([(k, None)]) == NonNull<T>([]);
    } else {
      assert (s + [(k, None)])[1..] == s[1..] + [(k, None)];
      NonNullAppendNull(s[1..], k);
    }
  }

  /** Only the non-null entries are visited: adding a null-valued key to the
      source makes no call. */
  lemma NullEntryMakesNoCall<T(!new)>(source: Record<T>, setters: set<string>, rules: RuleTable<T>, k: string)
    requires !HasProperty(source, k)
    ensures Map(SetProperty(source, k, None), setters, rules) == Map(source, setters, rules)
  {
    NonNullAppendNull(source.props, k);
  }

  /** The calls depend on the source only through its non-null entries:
      filtering the null-valued keys out first maps the same. */
  lemma OnlySnapshotMatters<T(!new)>(source: Record<T>, setters: set<string>, rules: RuleTable<T>)
    ensures Map(source, setters, rules) == Map(Filter(source, NotNull<T>), setters, rules)
  {
    NonNullOfFilterSome(source.props);
  }

  lemma {:induction false} NonNullOfFilterSome<T(!new)>(s: Storage<T>)
    ensures NonNull(FilterEntries(s, NotNull<T>)) == NonNull(s)
  {
    if s != [] {
      var s1: Storage<T> := s[1..];
      NonNullOfFilterSome(s1);
      var f := FilterEntries(s1, NotNull<T>);
      if s[0].1.Some? {
        assert FilterEntries(s, NotNull<T>) == [s[0]] + f;
        assert ([s[0]] + f)[1..] == f;
      }
    }
  }

  lemma LowerAllAppend(a: string, b: string)
    ensures LowerAll(a + b) == LowerAll(a) + LowerAll(b)
  {
  }

  /** PHP looks methods up without regard to case, so the `ucfirst` in the
      setter name never decides whether a setter is found. */
  lemma UcfirstIrrelevantToLookup(setters: set<string>, x: string)
    ensures Callable(setters, "set" + Ucfirst(x)) <==> Callable(setters, "set" + x)
  {
    LowerAllAppend("set", Ucfirst(x));
    LowerAllAppend("set", x);
    UcfirstFoldsAlike(x);
    CallableFoldsCase(setters, "set" + Ucfirst(x), "set" + x);
  }

  /** Whether a method is callable depends only on its case-folded name. */
  lemma CallableFoldsCase(setters: set<string>, m1: string, m2: string)
    requires LowerAll(m1) == LowerAll(m2)
    ensures Callable(setters, m1) <==> Callable(setters, m2)
  {
  }

  /** An entry with no rule calls `set` + its ucfirst'ed rewritten key with
      the source value, if the destination has that setter. */
  lemma StepWithoutRule<T>(k: string, v: T, row: Row<T>, setters: set<string>, rules: RuleTable<T>)
    requires NormalizeKey(k) !in rules
    ensures var m := "set" + Ucfirst(NormalizeKey(k));
            Step((k, v), row, setters, rules) == if Callable(setters, m) then [Call(m, Some(v))] else []
  {
  }

  /** An entry whose rule is a string calls `set` + that string, ucfirst'ed,
      with the source value. */
  lemma StepRename<T>(k: string, v: T, row: Row<T>, setters: set<string>, rules: RuleTable<T>, target: string)
    requires NormalizeKey(k) in rules && rules[NormalizeKey(k)] == Rename(target)
    ensures var m := "set" + Ucfirst(target);
            Step((k, v), row, setters, rules) == if Callable(setters, m) then [Call(m, Some(v))] else []
  {
  }

  /** An entry whose rule is a Rule calls `set` + the rule's name, ucfirst'ed,
      with the rule's value for the entry. */
  lemma StepApply<T>(k: string, v: T, row: Row<T>, setters: set<string>, rules: RuleTable<T>, rule: Rule<T>)
    requires NormalizeKey(k) in rules && rules[NormalizeKey(k)] == Apply(rule)
    ensures var m := "set" + Ucfirst(rule.name);
            Step((k, v), row, setters, rules) == if Callable(setters, m) then [Call(m, GetValue(rule, v, row))] else []
  {
  }

  /** A name no declared setter matches in length is not callable. */
  lemma LengthMismatchNotCallable(setters: set<string>, m: string)
    requires forall s :: s in setters ==> |s| != |m|
    ensures !Callable(setters, m)
  {
  }

  /** Mapping one entry makes exactly that entry's calls. */
  lemma DispatchSingle<T>(e: (string, T), row: Row<T>, setters: set<string>, rules: RuleTable<T>)
    ensures Dispatch([e], row, setters, rules) == Step(e, row, setters, rules)
  {
    assert [e][1..] == [];
  }

  /** An entry whose rule is neither null, a string nor a Rule makes no
      call at all. */
  lemma StepUnusable<T>(k: string, v: T, row: Row<T>, setters: set<string>, rules: RuleTable<T>)
    requires NormalizeKey(k) in rules && rules[NormalizeKey(k)] == Unusable
    ensures Step((k, v), row, setters, rules) == []
  {
  }

  /** Entry `i` makes its calls between those of the entries before it and
      those of the entries after it. */
  lemma {:induction false} DispatchAt<T>(entries: Row<T>, row: Row<T>, setters: set<string>, rules: RuleTable<T>, i: nat)
    requires i < |entries|
    ensures Dispatch(entries, row, setters, rules) ==
              Dispatch(entries[..i], row, setters, rules)
              + Step(entries[i], row, setters, rules)
              + Dispatch(entries[i + 1..], row, setters, rules)
  {
    var tail := [entries[i]] + entries[i + 1..];
    assert entries == entries[..i] + tail;
    DispatchAppend(entries[..i], tail, row, setters, rules);
    DispatchAppend([entries[i]], entries[i + 1..], row, setters, rules);
    DispatchSingle(entries[i], row, setters, rules);
  }

  /** Each non-null entry of the source makes its own calls at its own
      place: the calls of the entries before it, then its Step (which sees
      the whole snapshot as its row), then the calls of the entries after. */
  lemma MapAt<T(!new)>(source: Record<T>, setters: set<string>, rules: RuleTable<T>, i: nat)
    requires i < |GetProperties(source)|
    ensures var data := GetProperties(source);
            Map(source, setters, rules) ==
              Dispatch(data[..i], data, setters, rules)
              + Step(data[i], data, setters, rules)
              + Dispatch(data[i + 1..], data, setters, rules)
  {
    var data := GetProperties(source);
    DispatchAt(data, data, setters, rules, i);
  }
}

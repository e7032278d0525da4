/** The mapper: copies the non-null entries of a record into an arbitrary
    destination by calling its `set…` methods. The destination is modelled by
    the names of its public methods, and the effect of a mapping by the
    sequence of setter calls it makes. */
module Mapper {
  import opened Wrappers
  import opened Ascii
  import opened Records
  import opened Rules

  /** What the rule table may hold for a key: null, a plain rename string, a
      Rule, or a value of any other kind. */
  datatype RuleEntry<!T> =
    | NullEntry
    | Rename(target: string)
    | Apply(rule: Rule<T>)
    | Unusable

  type RuleTable<!T> = map<string, RuleEntry<T>>

  /** One setter invocation on the destination. */
  datatype Call<T> = Call(setter: string, arg: Option<T>)

  /** A key containing `_` is rewritten to camel case; any other key is kept. */
  function NormalizeKey(k: string): (key: string)
    ensures '_' !in key
    ensures '_' !in k ==> key == k
  {
    if '_' in k then Camelize(k) else k
  }

  /** Two underscore-free words joined by `_` become the two words, each
      with its first letter upper-cased (`right_level` gives `RightLevel`). */
  lemma {:induction false} NormalizeTwoWords(a: string, b: string)
    requires '_' !in a && '_' !in b
    ensures NormalizeKey(a + "_" + b) == Ucfirst(a) + Ucfirst(b)
  {
    assert (a + "_" + b)[|a|] == '_';
    CamelizeSegments(a, b);
    CamelizeWithoutUnderscore(a);
    CamelizeWithoutUnderscore(b);
  }

  /** PHP's `is_callable([$destination, $m])`: method names compare without
      regard to ASCII case. A declared name is callable, and a callable name
      matches a declared one letter for letter, case aside. */
  function Callable(setters: set<string>, m: string): (b: bool)
    ensures m in setters ==> b
    ensures b ==> exists s :: s in setters && LowerAll(s) == LowerAll(m)
  {
    exists s | s in setters :: LowerAll(s) == LowerAll(m)
  }

  /** The entry of the rule table that governs `key`. The table is consulted
      with the REWRITTEN key, and a null entry counts as no entry (`isset`). */
  function RuleFor<T>(rules: RuleTable<T>, key: string): (e: Option<RuleEntry<T>>)
    ensures e.Some? <==> NormalizeKey(key) in rules && !rules[NormalizeKey(key)].NullEntry?
    ensures e.Some? ==> e.value == rules[NormalizeKey(key)]
  {
    var nk := NormalizeKey(key);
    if nk in rules && !rules[nk].NullEntry? then Some(rules[nk]) else None
  }

  /** The setter name and argument one entry resolves to, or None when its
      rule is neither a string nor a Rule. */
  function Resolve<T>(key: string, value: T, row: Row<T>, rules: RuleTable<T>): (target: Option<(string, Option<T>)>)
    ensures RuleFor(rules, key) == None ==>
              target == Some(("set" + Ucfirst(NormalizeKey(key)), Some(value)))
    ensures RuleFor(rules, key).Some? && RuleFor(rules, key).value.Rename? ==>
              target == Some(("set" + Ucfirst(RuleFor(rules, key).value.target), Some(value)))
    ensures RuleFor(rules, key).Some? && RuleFor(rules, key).value.Apply? ==>
              var rule := RuleFor(rules, key).value.rule;
              target == Some(("set" + Ucfirst(GetName(rule)), GetValue(rule, value, row)))
    ensures target.None? <==> RuleFor(rules, key) == Some(Unusable)
  {
    match RuleFor(rules, key)
    case None => Some(("set" + Ucfirst(NormalizeKey(key)), Some(value)))
    case Some(Rename(t)) => Some(("set" + Ucfirst(t), Some(value)))
    case Some(Apply(rule)) => Some(("set" + Ucfirst(GetName(rule)), GetValue(rule, value, row)))
    case Some(_) => None
  }

  /** The calls one entry gives rise to: its resolved setter, if the
      destination has it. */
  function Step<T>(entry: (string, T), row: Row<T>, setters: set<string>, rules: RuleTable<T>): (calls: seq<Call<T>>)
    ensures |calls| <= 1
    ensures forall i :: 0 <= i < |calls| ==> Callable(setters, calls[i].setter)
    ensures forall i :: 0 <= i < |calls| ==> "set" <= calls[i].setter
    ensures RuleFor(rules, entry.0) == Some(Unusable) ==> calls == []
    ensures var target := Resolve(entry.0, entry.1, row, rules);
            target.Some? && Callable(setters, target.value.0) ==>
              calls == [Call(target.value.0, target.value.1)]
  {
    match Resolve(entry.0, entry.1, row, rules)
    case Some((m, arg)) => if Callable(setters, m) then [Call(m, arg)] else []
    case None => []
  }

  /** The calls made for `entries`, in order, each entry consulting `row`. */
  function Dispatch<T>(entries: Row<T>, row: Row<T>, setters: set<string>, rules: RuleTable<T>): (calls: seq<Call<T>>)
    ensures |calls| <= |entries|
    ensures forall i :: 0 <= i < |calls| ==> Callable(setters, calls[i].setter)
    ensures forall i :: 0 <= i < |calls| ==> "set" <= calls[i].setter
    decreases |entries|
  {
    if entries == [] then []
    else Step(entries[0], row, setters, rules) + Dispatch(entries[1..], row, setters, rules)
  }

  /** `Mapper::map`: at most one call per non-null entry, each to a setter
      the destination has. */
  function Map<T(!new)>(source: Record<T>, setters: set<string>, rules: RuleTable<T>): (calls: seq<Call<T>>)
    ensures |calls| <= |GetProperties(source)|
    ensures forall i :: 0 <= i < |calls| ==> Callable(setters, calls[i].setter)
    ensures forall i :: 0 <= i < |calls| ==> "set" <= calls[i].setter
  {
    var data := GetProperties(source);
    Dispatch(data, data, setters, rules)
  }
}

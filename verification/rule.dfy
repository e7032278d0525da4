/** A mapping rule: the name of the destination field, and how the source
    value is turned into the value handed to that field's setter. */
module Rules {
  import opened Wrappers

  /** The row a rule may consult: the whole null-filtered source record. */
  type Row<T> = seq<(string, T)>

  /** The rule's optional value: nothing (pass the source value through), a
      callable of (value, row), or a constant. A callable may return null. */
  datatype RuleValue<!T> =
    | NoValue
    | Fn(f: (T, Row<T>) -> Option<T>)
    | Const(c: T)

  datatype Rule<!T> = Rule(name: string, value: RuleValue<T>)

  /** The constructor; `NoValue` stands for the default `null` argument. */
  function NewRule<T(!new)>(name: string, value: RuleValue<T>): (rule: Rule<T>)
    ensures GetName(rule) == name
    ensures value.NoValue? ==> forall v, row :: GetValue(rule, v, row) == Some(v)
    ensures value.Const? ==> forall v, row :: GetValue(rule, v, row) == Some(value.c)
  {
    Rule(name, value)
  }

  /** `getName`. */
  function GetName<T>(rule: Rule<T>): string {
    rule.name
  }

  /** `getValue`: the source value unchanged when the rule has no value, the
      callable applied to (value, row) when it has one, and otherwise the
      constant, whatever the source value was. */
  function GetValue<T>(rule: Rule<T>, v: T, row: Row<T>): (r: Option<T>)
    ensures rule.value.NoValue? ==> r == Some(v)
    ensures rule.value.Fn? ==> r == rule.value.f(v, row)
    ensures rule.value.Const? ==> r == Some(rule.value.c)
  {
    match rule.value
    case NoValue => Some(v)
    case Fn(f) => f(v, row)
    case Const(c) => Some(c)
  }

  /** A constant rule ignores both the source value and the row. */
  lemma ConstIgnoresInput<T>(rule: Rule<T>, v1: T, row1: Row<T>, v2: T, row2: Row<T>)
    requires rule.value.Const?
    ensures GetValue(rule, v1, row1) == GetValue(rule, v2, row2)
  {
  }

  /** Only a callable rule can yield null. */
  lemma OnlyCallablesYieldNull<T>(rule: Rule<T>, v: T, row: Row<T>)
    requires GetValue(rule, v, row) == None
    ensures rule.value.Fn?
  {
  }
}

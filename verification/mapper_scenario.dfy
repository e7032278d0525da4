/** The mapping scenario of the mapper's unit test, worked out on the model:
    underscore keys reach camel-case setters, a rename string and three kinds
    of Rule pick the setter and value, and an entry whose setter the
    destination lacks is skipped. */
module MapperScenario {
  import opened Wrappers
  import opened Ascii
  import opened Records
  import opened RecordConstruction
  import opened Rules
  import opened Mapper
  import RecordLaws
  import MapperLaws

  datatype Value = Int(i: int) | Str(s: string)

  /** The test's source array. */
  const Data: Plain<Value> := [
    ("id", Int(1)),
    ("userId", Int(12)),
    ("right_level", Str("bar")),
    ("title", Str("foo")),
    ("content", Str("bar")),
    ("rating", Str("a-rating")),
    ("date", Str("2014-09-06"))
  ]

  /** The same array as record storage: every value is non-null. */
  function Entries(): Storage<Value> {
    LiftUnique(Data);
    Lift(Data)
  }

  /** The destination's setters; it has none for `userId`. */
  const Setters: set<string> :=
    {"setId", "setRightLevel", "setDescription", "setContent", "setLevel", "setDate"}

  /** The test's rule table; `toEpoch` stands for the date-parsing callable. */
  function TestRules(toEpoch: (Value, Row<Value>) -> Option<Value>): RuleTable<Value> {
    map[
      "title" := Rename("description"),
      "content" := Apply(NewRule("content", NoValue)),
      "rating" := Apply(NewRule("level", Const(Str("no-rating")))),
      "date" := Apply(NewRule("date", Fn(toEpoch)))
    ]
  }

  /** What the test's rule table holds for each source key. */
  lemma TestRulesEntries(toEpoch: (Value, Row<Value>) -> Option<Value>)
    ensures var rules := TestRules(toEpoch);
            && "id" !in rules && "userId" !in rules && "RightLevel" !in rules
            && "title" in rules && rules["title"] == Rename("description")
            && "content" in rules && rules["content"] == Apply(NewRule("content", NoValue))
            && "rating" in rules && rules["rating"] == Apply(NewRule("level", Const(Str("no-rating"))))
            && "date" in rules && rules["date"] == Apply(NewRule("date", Fn(toEpoch)))
  {
  }

  lemma UnderscoreFreeWords()
    ensures '_' !in "right" && '_' !in "level"
  {
    forall i | 0 <= i < 5 ensures "right"[i] != '_' && "level"[i] != '_' { }
  }

  lemma UcfirstWords()
    ensures Ucfirst("right") + Ucfirst("level") == "RightLevel"
  {
    assert Ucfirst("right") == "Right" && Ucfirst("level") == "Level";
  }

  lemma RightLevelJoined()
    ensures "right" + "_" + "level" == "right_level"
  {
  }

  /** The test's underscore key is rewritten to `RightLevel`. */
  lemma RightLevelCamelized()
    ensures NormalizeKey("right_level") == "RightLevel"
  {
    RightLevelJoined();
    UnderscoreFreeWords();
    NormalizeTwoWords("right", "level");
    UcfirstWords();
  }

  /** The source record holds the seven test entries, none of them null. */
  lemma SourceSnapshot()
    ensures GetProperties(FromArray(Pairs(Entries()))) == Data
  {
    RecordLaws.NonNullOfLift(Data);
  }

  lemma IdNames()
    ensures NormalizeKey("id") == "id"
    ensures "set" + Ucfirst("id") == "setId"
  {
    assert '_' !in "id";
    assert Ucfirst("id") == "Id";
    assert "set" + "Id" == "setId";
  }

  /** `id` has no rule and reaches `setId`. */
  lemma StepId(rules: RuleTable<Value>)
    requires "id" !in rules
    ensures Step(Data[0], Data, Setters, rules) == [Call("setId", Some(Int(1)))]
  {
    IdNames();
    assert Data[0] == ("id", Int(1));
    MapperLaws.StepWithoutRule("id", Int(1), Data, Setters, rules);
  }

  lemma UserIdNames()
    ensures NormalizeKey("userId") == "userId"
    ensures "set" + Ucfirst("userId") == "setUserId"
  {
    assert '_' !in "userId";
    assert Ucfirst("userId") == "UserId";
    assert "set" + "UserId" == "setUserId";
  }

  /** The destination has no `setUserId`, so `userId` is skipped. */
  lemma StepUserId(rules: RuleTable<Value>)
    requires "userId" !in rules
    ensures Step(Data[1], Data, Setters, rules) == []
  {
    UserIdNames();
    assert Data[1] == ("userId", Int(12));
    MapperLaws.LengthMismatchNotCallable(Setters, "setUserId");
    MapperLaws.StepWithoutRule("userId", Int(12), Data, Setters, rules);
  }

  lemma RightLevelNames(rules: RuleTable<Value>)
    requires "RightLevel" !in rules
    ensures NormalizeKey("right_level") !in rules
    ensures "set" + Ucfirst(NormalizeKey("right_level")) == "setRightLevel"
  {
    RightLevelCamelized();
    RightLevelSetter();
  }

  lemma RightLevelSetter()
    ensures "set" + Ucfirst("RightLevel") == "setRightLevel"
  {
    assert Ucfirst("RightLevel") == "RightLevel";
  }

  /** `right_level` reaches `setRightLevel`. */
  lemma StepRightLevel(rules: RuleTable<Value>)
    requires "RightLevel" !in rules
    ensures Step(Data[2], Data, Setters, rules) == [Call("setRightLevel", Some(Str("bar")))]
  {
    RightLevelNames(rules);
    assert Data[2] == ("right_level", Str("bar"));
    MapperLaws.StepWithoutRule("right_level", Str("bar"), Data, Setters, rules);
  }

  lemma TitleNames()
    ensures NormalizeKey("title") == "title"
    ensures "set" + Ucfirst("description") == "setDescription"
  {
    assert '_' !in "title";
    assert Ucfirst("description") == "Description";
    assert "set" + "Description" == "setDescription";
  }

  /** The string rule sends `title` to `setDescription`. */
  lemma StepTitle(rules: RuleTable<Value>)
    requires "title" in rules && rules["title"] == Rename("description")
    ensures Step(Data[3], Data, Setters, rules) == [Call("setDescription", Some(Str("foo")))]
  {
    TitleNames();
    assert Data[3] == ("title", Str("foo"));
    MapperLaws.StepRename("title", Str("foo"), Data, Setters, rules, "description");
  }

  lemma ContentNames()
    ensures NormalizeKey("content") == "content"
    ensures "set" + Ucfirst("content") == "setContent"
  {
    assert '_' !in "content";
    assert Ucfirst("content") == "Content";
    assert "set" + "Content" == "setContent";
  }

  /** A Rule without a value passes `content` through unchanged. */
  lemma StepContent(rules: RuleTable<Value>)
    requires "content" in rules && rules["content"] == Apply(NewRule("content", NoValue))
    ensures Step(Data[4], Data, Setters, rules) == [Call("setContent", Some(Str("bar")))]
  {
    ContentNames();
    assert Data[4] == ("content", Str("bar"));
    var rule := NewRule("content", NoValue);
    MapperLaws.StepApply("content", Str("bar"), Data, Setters, rules, rule);
  }

  lemma RatingNames()
    ensures NormalizeKey("rating") == "rating"
    ensures "set" + Ucfirst("level") == "setLevel"
  {
    assert '_' !in "rating";
    assert Ucfirst("level") == "Level";
    assert "set" + "Level" == "setLevel";
  }

  /** A constant Rule replaces the `rating` value and renames it to `level`. */
  lemma StepRating(rules: RuleTable<Value>)
    requires "rating" in rules && rules["rating"] == Apply(NewRule("level", Const(Str("no-rating"))))
    ensures Step(Data[5], Data, Setters, rules) == [Call("setLevel", Some(Str("no-rating")))]
  {
    RatingNames();
    assert Data[5] == ("rating", Str("a-rating"));
    var rule := NewRule("level", Const(Str("no-rating")));
    MapperLaws.StepApply("rating", Str("a-rating"), Data, Setters, rules, rule);
  }

  lemma DateNames()
    ensures NormalizeKey("date") == "date"
    ensures "set" + Ucfirst("date") == "setDate"
  {
    assert '_' !in "date";
    assert Ucfirst("date") == "Date";
    assert "set" + "Date" == "setDate";
  }

  /** A callable Rule hands `date` and the whole row to the callable. */
  lemma StepDate(rules: RuleTable<Value>, toEpoch: (Value, Row<Value>) -> Option<Value>)
    requires "date" in rules && rules["date"] == Apply(NewRule("date", Fn(toEpoch)))
    ensures Step(Data[6], Data, Setters, rules) == [Call("setDate", toEpoch(Str("2014-09-06"), Data))]
  {
    DateNames();
    assert Data[6] == ("date", Str("2014-09-06"));
    var rule := NewRule("date", Fn(toEpoch));
    MapperLaws.StepApply("date", Str("2014-09-06"), Data, Setters, rules, rule);
  }

  /** The calls the test observes: six setters in source order, `userId`
      skipped, and the date handed to the date-parsing callable. */
  lemma TestMapping(toEpoch: (Value, Row<Value>) -> Option<Value>)
    ensures Map(FromArray(Pairs(Entries())), Setters, TestRules(toEpoch)) == [
              Call("setId", Some(Int(1))),
              Call("setRightLevel", Some(Str("bar"))),
              Call("setDescription", Some(Str("foo"))),
              Call("setContent", Some(Str("bar"))),
              Call("setLevel", Some(Str("no-rating"))),
              Call("setDate", toEpoch(Str("2014-09-06"), Data))
            ]
  {
    var rules := TestRules(toEpoch);
    TestRulesEntries(toEpoch);
    SourceSnapshot();
    StepId(rules);
    StepUserId(rules);
    StepRightLevel(rules);
    StepTitle(rules);
    StepContent(rules);
    StepRating(rules);
    StepDate(rules, toEpoch);
    var source := FromArray(Pairs(Entries()));
    assert Map(source, Setters, rules) == Dispatch(Data, Data, Setters, rules);
    DispatchEach(Data, Data, Setters, rules);
    SixCalls(Call("setId", Some(Int(1))), Call("setRightLevel", Some(Str("bar"))),
             Call("setDescription", Some(Str("foo"))), Call("setContent", Some(Str("bar"))),
             Call("setLevel", Some(Str("no-rating"))), Call("setDate", toEpoch(Str("2014-09-06"), Data)));
  }

  lemma SixCalls<T>(a: Call<T>, b: Call<T>, c: Call<T>, d: Call<T>, e: Call<T>, f: Call<T>)
    ensures [a] + [] + [b] + [c] + [d] + [e] + [f] == [a, b, c, d, e, f]
  {
  }

  /** Mapping the seven entries makes their calls one entry after another. */
  lemma DispatchEach<T>(e: Row<T>, row: Row<T>, setters: set<string>, rules: RuleTable<T>)
    requires |e| == 7
    ensures Dispatch(e, row, setters, rules) ==
              Step(e[0], row, setters, rules) + Step(e[1], row, setters, rules) +
              Step(e[2], row, setters, rules) + Step(e[3], row, setters, rules) +
              Step(e[4], row, setters, rules) + Step(e[5], row, setters, rules) +
              Step(e[6], row, setters, rules)
  {
    assert e == [e[0]] + [e[1]] + [e[2]] + [e[3]] + [e[4]] + [e[5]] + [e[6]];
    MapperLaws.DispatchAppend([e[0]] + [e[1]] + [e[2]] + [e[3]] + [e[4]] + [e[5]], [e[6]], row, setters, rules);
    MapperLaws.DispatchAppend([e[0]] + [e[1]] + [e[2]] + [e[3]] + [e[4]], [e[5]], row, setters, rules);
    MapperLaws.DispatchAppend([e[0]] + [e[1]] + [e[2]] + [e[3]], [e[4]], row, setters, rules);
    MapperLaws.DispatchAppend([e[0]] + [e[1]] + [e[2]], [e[3]], row, setters, rules);
    MapperLaws.DispatchAppend([e[0]] + [e[1]], [e[2]], row, setters, rules);
    MapperLaws.DispatchAppend([e[0]], [e[1]], row, setters, rules);
    forall i | 0 <= i < 7 ensures Dispatch([e[i]], row, setters, rules) == Step(e[i], row, setters, rules) {
      MapperLaws.DispatchSingle(e[i], row, setters, rules);
    }
  }
}

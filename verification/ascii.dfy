/** The string helpers the mapper relies on: PHP's `ucfirst`, `explode('_', …)`,
    `implode` and the ASCII case folding PHP applies to method names. From PHP
    8.2 on, all of these act on ASCII letters only, whatever the locale;
    every other character is left as it is. */
module Ascii {

  function Upper(c: char): char {
    if 'a' <= c <= 'z' then (c as int - 32) as char else c
  }

  function Lower(c: char): char {
    if 'A' <= c <= 'Z' then (c as int + 32) as char else c
  }

  /** Case folding of a whole string, as PHP compares method names. */
  function LowerAll(s: string): (r: string)
    ensures |r| == |s|
    ensures forall i :: 0 <= i < |s| ==> r[i] == Lower(s[i])
  {
    seq(|s|, i requires 0 <= i < |s| => Lower(s[i]))
  }

  /** PHP `ucfirst`: the first character upper-cased, the rest untouched. */
  function Ucfirst(s: string): (r: string)
    ensures |r| == |s|
    ensures |s| > 0 ==> r[0] == Upper(s[0])
    ensures forall i :: 0 < i < |s| ==> r[i] == s[i]
  {
    if s == [] then [] else [Upper(s[0])] + s[1..]
  }

  /** `ucfirst` changes nothing once case is folded away. */
  lemma UcfirstFoldsAlike(s: string)
    ensures LowerAll(Ucfirst(s)) == LowerAll(s)
  {
    var r := Ucfirst(s);
    forall i | 0 <= i < |s| ensures LowerAll(r)[i] == LowerAll(s)[i] {
      if i == 0 {
        assert Lower(Upper(s[0])) == Lower(s[0]);
      }
    }
  }

  /** PHP `explode('_', s)`: the maximal runs between underscores, always at
      least one (possibly empty) segment. */
  function Split(s: string): (segs: seq<string>)
    ensures |segs| >= 1
    decreases |s|
  {
    if s == [] then [""]
    else
      var rest := Split(s[1..]);
      if s[0] == '_' then [""] + rest
      else [[s[0]] + rest[0]] + rest[1..]
  }

  /** No segment of a split contains the separator. */
  lemma {:induction false} SplitSegmentsPlain(s: string)
    ensures forall i :: 0 <= i < |Split(s)| ==> '_' !in Split(s)[i]
    decreases |s|
  {
    if s != [] {
      var rest := Split(s[1..]);
      SplitSegmentsPlain(s[1..]);
      if s[0] != '_' {
        var segs := Split(s);
        forall i | 0 <= i < |segs| ensures '_' !in segs[i] {
          if i == 0 {
            assert segs[0] == [s[0]] + rest[0];
            assert '_' !in rest[0];
          } else {
            assert segs[i] == rest[i];
          }
        }
      }
    }
  }

  /** PHP `implode('_', segs)`, the inverse of `Split`. */
  function Join(segs: seq<string>): string
    requires |segs| >= 1
  {
    if |segs| == 1 then segs[0] else segs[0] + "_" + Join(segs[1..])
  }

  /** PHP `implode('', segs)`. */
  function Concat(segs: seq<string>): string {
    if segs == [] then "" else segs[0] + Concat(segs[1..])
  }

  /** PHP `array_map('ucfirst', segs)`. */
  function UcfirstEach(segs: seq<string>): (r: seq<string>)
    ensures |r| == |segs|
    ensures forall i :: 0 <= i < |segs| ==> r[i] == Ucfirst(segs[i])
  {
    seq(|segs|, i requires 0 <= i < |segs| => Ucfirst(segs[i]))
  }

  /** The camel-case rewrite of a key: every `_`-separated segment passed
      through `ucfirst` and the segments concatenated. */
  function Camelize(s: string): (r: string)
    ensures '_' !in r
  {
    SplitSegmentsPlain(s);
    var segs := UcfirstEach(Split(s));
    NoUnderscoreInConcat(segs);
    Concat(segs)
  }

  lemma {:induction false} NoUnderscoreInConcat(segs: seq<string>)
    requires forall i :: 0 <= i < |segs| ==> '_' !in segs[i]
    ensures '_' !in Concat(segs)
  {
    if segs != [] {
      NoUnderscoreInConcat(segs[1..]);
    }
  }

  lemma {:induction false} ConcatAppend(a: seq<string>, b: seq<string>)
    ensures Concat(a + b) == Concat(a) + Concat(b)
  {
    if a == [] {
      assert a + b == b;
    } else {
      assert (a + b)[1..] == a[1..] + b;
      ConcatAppend(a[1..], b);
    }
  }

  /** Gluing a segment onto the front of a split string. */
  lemma {:induction false} JoinCons(x: string, segs: seq<string>)
    requires |segs| >= 1
    ensures Join([x + segs[0]] + segs[1..]) == x + Join(segs)
  {
    var t := [x + segs[0]] + segs[1..];
    if |segs| > 1 {
      assert t[1..] == segs[1..];
    }
  }

  /** Splitting and joining again gives back the original string. */
  lemma {:induction false} JoinSplit(s: string)
    ensures Join(Split(s)) == s
    decreases |s|
  {
    if s != [] {
      var rest := Split(s[1..]);
      JoinSplit(s[1..]);
      if s[0] == '_' {
        assert ([""] + rest)[1..] == rest;
        assert s == "_" + s[1..];
      } else {
        JoinCons([s[0]], rest);
        assert s == [s[0]] + s[1..];
      }
    }
  }

  /** Splitting `seg + t` when `seg` holds no underscore extends the first
      segment of `t`'s split. */
  lemma {:induction false} SplitPrefix(seg: string, t: string)
    requires '_' !in seg
    ensures Split(seg + t) == [seg + Split(t)[0]] + Split(t)[1..]
    decreases |seg|
  {
    if seg == [] {
      assert seg + t == t;
      assert seg + Split(t)[0] == Split(t)[0];
      assert [Split(t)[0]] + Split(t)[1..] == Split(t);
    } else {
      assert (seg + t)[1..] == seg[1..] + t;
      assert (seg + t)[0] == seg[0] && seg[0] in seg;
      SplitPrefix(seg[1..], t);
      assert [seg[0]] + (seg[1..] + Split(t)[0]) == seg + Split(t)[0];
    }
  }

  /** Joining underscore-free segments and splitting again gives back the
      segments. */
  lemma {:induction false} SplitJoin(segs: seq<string>)
    requires |segs| >= 1
    requires forall i :: 0 <= i < |segs| ==> '_' !in segs[i]
    ensures Split(Join(segs)) == segs
  {
    if |segs| == 1 {
      SplitPrefix(segs[0], "");
      assert segs[0] + "" == segs[0];
    } else {
      var t := "_" + Join(segs[1..]);
      SplitJoin(segs[1..]);
      assert t[1..] == Join(segs[1..]);
      assert Split(t) == [""] + segs[1..];
      SplitPrefix(segs[0], t);
      assert segs[0] + "_" + Join(segs[1..]) == segs[0] + t;
      assert segs[0] + "" == segs[0];
      assert segs == [segs[0]] + segs[1..];
    }
  }

  /** Splitting a string one character longer at the front. */
  lemma {:induction false} SplitCons(c: char, t: string)
    ensures c == '_' ==> Split([c] + t) == [""] + Split(t)
    ensures c != '_' ==> Split([c] + t) == [[c] + Split(t)[0]] + Split(t)[1..]
  {
    assert ([c] + t)[0] == c;
    assert ([c] + t)[1..] == t;
  }

  /** Splitting at one more underscore appends the two halves' segments. */
  lemma {:induction false} SplitAtUnderscore(a: string, b: string)
    ensures Split(a + "_" + b) == Split(a) + Split(b)
    decreases |a|
  {
    if a == [] {
      assert a + "_" + b == ['_'] + b;
      SplitCons('_', b);
    } else {
      var t := a[1..] + "_" + b;
      SplitAtUnderscore(a[1..], b);
      SplitExtend(a[0], a[1..], t, Split(b));
      assert a + "_" + b == [a[0]] + t;
      assert a == [a[0]] + a[1..];
    }
  }

  /** One more leading character on both `t` and `a` keeps `Split(t)` an
      extension of `Split(a)`. */
  lemma {:induction false} SplitExtend(c: char, a: string, t: string, y: seq<string>)
    requires Split(t) == Split(a) + y
    ensures Split([c] + t) == Split([c] + a) + y
  {
    var x := Split(a);
    SplitCons(c, t);
    SplitCons(c, a);
    if c != '_' {
      assert (x + y)[0] == x[0];
      assert (x + y)[1..] == x[1..] + y;
    }
  }

  /** The camel-case rewrite works segment by segment: rewriting `a_b` is
      rewriting `a` followed by rewriting `b`. */
  lemma {:induction false} CamelizeSegments(a: string, b: string)
    ensures Camelize(a + "_" + b) == Camelize(a) + Camelize(b)
  {
    SplitAtUnderscore(a, b);
    var x, y := Split(a), Split(b);
    UcfirstEachAppend(x, y);
    ConcatAppend(UcfirstEach(x), UcfirstEach(y));
  }

  lemma {:induction false} UcfirstEachAppend(x: seq<string>, y: seq<string>)
    ensures UcfirstEach(x + y) == UcfirstEach(x) + UcfirstEach(y)
  {
    var l, r := UcfirstEach(x + y), UcfirstEach(x) + UcfirstEach(y);
    assert |l| == |r|;
    forall i | 0 <= i < |l| ensures l[i] == r[i] {
      if i < |x| {
        assert (x + y)[i] == x[i];
      } else {
        assert (x + y)[i] == y[i - |x|];
      }
    }
  }

  /** On a key without underscores the rewrite is just `ucfirst`. */
  lemma {:induction false} CamelizeWithoutUnderscore(s: string)
    requires '_' !in s
    ensures Camelize(s) == Ucfirst(s)
  {
    SplitPrefix(s, "");
    assert s + "" == s;
    assert Split(s) == [s];
    assert UcfirstEach([s]) == [Ucfirst(s)];
    assert Concat([Ucfirst(s)]) == Ucfirst(s) + Concat([]);
  }
}

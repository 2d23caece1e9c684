/**
  Best-effort hydration of a live object from a name-keyed pool: positional
  keys are dropped, then the setter-method phase and the property phase run
  in the configured order. A member that cannot be bound is skipped; an
  empty pool at the start of any member ends the whole hydration.
 */
module ObjectTransformer {
  import opened Wrappers
  import opened PhpValues
  import opened PhpArray
  import opened Configuration
  import opened Reflection
  import opened Coercion
  import opened ArgumentTransformer
  import opened CallableTransformer

  /** A reflected method of the target: its name and declared parameters. */
  datatype Method = Method(name: string, params: seq<Slot>)

  /** `$method->getNumberOfParameters()`. */
  function Arity(m: Method): nat {
    |m.params|
  }

  /** A method invocation with its argument vector. */
  datatype Invocation = Invocation(name: string, argv: Entries)

  /** What hydration does to the target: the properties it assigns and the methods it invokes. */
  datatype Hydrated = Hydrated(props: map<string, Value>, calls: seq<Invocation>)

  /** The pool and target after a phase; `exhausted` when the pool ran empty before a member. */
  datatype Phase = Phase(pool: map<Key, Value>, target: Hydrated, exhausted: bool)

  /** The pool: the input without its non-string (positional) keys. */
  function StringKeysOnly(input: map<Key, Value>): (pool: map<Key, Value>)
    ensures forall k :: k in pool <==> k in input && k.KStr?
    ensures forall k :: k in pool ==> pool[k] == input[k]
  {
    map k | k in input && k.KStr? :: input[k]
  }

  /** The methods whose parameter count is within the ceiling, in their original order. */
  function Filter(ms: seq<Method>, max: int): (r: seq<Method>)
    ensures forall m :: multiset(r)[m] == if Arity(m) <= max then multiset(ms)[m] else 0
    ensures forall i :: 0 <= i < |r| ==> Arity(r[i]) <= max
  {
    if |ms| == 0 then []
    else
      assert ms == [ms[0]] + ms[1..];
      if Arity(ms[0]) <= max then [ms[0]] + Filter(ms[1..], max) else Filter(ms[1..], max)
  }

  /** Filtering keeps relative order: it distributes over concatenation. */
  lemma {:induction false} FilterAppend(a: seq<Method>, b: seq<Method>, max: int)
    ensures Filter(a + b, max) == Filter(a, max) + Filter(b, max)
    decreases |a|
  {
    if |a| > 0 {
      assert (a + b)[0] == a[0];
      assert (a + b)[1..] == a[1..] + b;
      FilterAppend(a[1..], b, max);
    } else {
      assert a + b == b;
    }
  }

  /** The methods with exactly n parameters, in order. */
  function WithArity(ms: seq<Method>, n: nat): (r: seq<Method>)
    ensures forall i :: 0 <= i < |r| ==> Arity(r[i]) == n
  {
    if |ms| == 0 then []
    else if Arity(ms[0]) == n then [ms[0]] + WithArity(ms[1..], n)
    else WithArity(ms[1..], n)
  }

  predicate SortedByArity(ms: seq<Method>) {
    forall i, j :: 0 <= i < j < |ms| ==> Arity(ms[i]) <= Arity(ms[j])
  }

  /** Insertion in front of the first method with at least as many parameters: equal arities keep their order. */
  function Insert(m: Method, s: seq<Method>): (r: seq<Method>)
    ensures multiset(r) == multiset(s) + multiset{m}
  {
    if |s| == 0 then [m]
    else if Arity(m) <= Arity(s[0]) then [m] + s
    else
      assert s == [s[0]] + s[1..];
      [s[0]] + Insert(m, s[1..])
  }

  lemma SortedTail(s: seq<Method>)
    requires |s| > 0 && SortedByArity(s)
    ensures SortedByArity(s[1..])
  {
    forall i, j | 0 <= i < j < |s[1..]|
      ensures Arity(s[1..][i]) <= Arity(s[1..][j])
    {
      assert s[1..][i] == s[i + 1] && s[1..][j] == s[j + 1];
    }
  }

  /** Insertion into methods of at least b parameters, of one with at least b, keeps that bound. */
  lemma {:induction false} InsertBounded(m: Method, s: seq<Method>, b: nat)
    requires b <= Arity(m)
    requires forall k :: 0 <= k < |s| ==> b <= Arity(s[k])
    ensures forall j :: 0 <= j < |Insert(m, s)| ==> b <= Arity(Insert(m, s)[j])
    decreases |s|
  {
    if |s| > 0 && Arity(m) > Arity(s[0]) {
      forall k | 0 <= k < |s[1..]| ensures b <= Arity(s[1..][k]) {
        assert s[1..][k] == s[k + 1];
      }
      InsertBounded(m, s[1..], b);
      var r := Insert(m, s);
      assert r == [s[0]] + Insert(m, s[1..]);
      forall j | 0 <= j < |r| ensures b <= Arity(r[j]) {
        if j > 0 { assert r[j] == Insert(m, s[1..])[j - 1]; }
      }
    }
  }

  /** Insertion keeps a list sorted. */
  lemma {:induction false} InsertSorted(m: Method, s: seq<Method>)
    requires SortedByArity(s)
    ensures SortedByArity(Insert(m, s))
    decreases |s|
  {
    var r := Insert(m, s);
    if |s| > 0 && Arity(m) <= Arity(s[0]) {
      forall i, j | 0 <= i < j < |r|
        ensures Arity(r[i]) <= Arity(r[j])
      {
        if i > 0 {
          assert r[i] == s[i - 1];
        }
        assert r[j] == s[j - 1];
      }
    } else if |s| > 0 {
      SortedTail(s);
      InsertSorted(m, s[1..]);
      var t := Insert(m, s[1..]);
      assert r == [s[0]] + t;
      forall k | 0 <= k < |s[1..]| ensures Arity(s[0]) <= Arity(s[1..][k]) {
        assert s[1..][k] == s[k + 1];
      }
      InsertBounded(m, s[1..], Arity(s[0]));
      forall i, j | 0 <= i < j < |r|
        ensures Arity(r[i]) <= Arity(r[j])
      {
        if i > 0 {
          assert r[i] == t[i - 1];
        }
        assert r[j] == t[j - 1];
      }
    }
  }

  /** `usort` by parameter count, which is stable: an insertion sort from the back. */
  function SortByArity(ms: seq<Method>): (r: seq<Method>)
    ensures multiset(r) == multiset(ms)
    ensures SortedByArity(r)
  {
    if |ms| == 0 then []
    else
      assert ms == [ms[0]] + ms[1..];
      var t := SortByArity(ms[1..]);
      InsertSorted(ms[0], t);
      Insert(ms[0], t)
  }

  /** Inserting into a sorted list adds m to its own arity class only, at the front. */
  lemma {:induction false} WithArityInsert(m: Method, s: seq<Method>, n: nat)
    requires SortedByArity(s)
    ensures WithArity(Insert(m, s), n) == if Arity(m) == n then [m] + WithArity(s, n) else WithArity(s, n)
    decreases |s|
  {
    if |s| > 0 && Arity(m) > Arity(s[0]) {
      SortedTail(s);
      WithArityInsert(m, s[1..], n);
      var r := Insert(m, s);
      assert r[0] == s[0] && r[1..] == Insert(m, s[1..]);
      if Arity(m) == n {
        assert Arity(s[0]) != n;
      }
    } else if |s| > 0 {
      var r := Insert(m, s);
      assert r[0] == m && r[1..] == s;
    }
  }

  /** Stability: the sort keeps the order within every arity class. */
  lemma {:induction false} SortIsStable(ms: seq<Method>, n: nat)
    ensures WithArity(SortByArity(ms), n) == WithArity(ms, n)
    decreases |ms|
  {
    if |ms| > 0 {
      SortIsStable(ms[1..], n);
      WithArityInsert(ms[0], SortByArity(ms[1..]), n);
    }
  }

  /** A sorted list is determined by its arity classes: the stable sort is the only sorted arrangement keeping them. */
  lemma {:induction false} SortedUniqueByClasses(a: seq<Method>, b: seq<Method>)
    requires SortedByArity(a) && SortedByArity(b)
    requires forall n :: WithArity(a, n) == WithArity(b, n)
    ensures a == b
    decreases |a| + |b|
  {
    if |a| == 0 || |b| == 0 {
      if |a| > 0 {
        NonEmptyClass(a);
      } else if |b| > 0 {
        NonEmptyClass(b);
      }
    } else {
      var na, nb := Arity(a[0]), Arity(b[0]);
      if na < nb {
        NoSmallerArity(b, na);
      } else if nb < na {
        NoSmallerArity(a, nb);
      } else {
        assert WithArity(a, na)[0] == a[0] && WithArity(b, na)[0] == b[0];
        assert WithArity(a, na) == WithArity(b, na);
        assert a[0] == b[0];
        SortedTail(a);
        SortedTail(b);
        forall n
          ensures WithArity(a[1..], n) == WithArity(b[1..], n)
        {
          assert WithArity(a, n) == WithArity(b, n);
          if n == na {
            assert WithArity(a, n) == [a[0]] + WithArity(a[1..], n);
            assert WithArity(b, n) == [b[0]] + WithArity(b[1..], n);
            assert WithArity(a[1..], n) == WithArity(a, n)[1..];
            assert WithArity(b[1..], n) == WithArity(b, n)[1..];
          } else {
            assert WithArity(a, n) == WithArity(a[1..], n);
            assert WithArity(b, n) == WithArity(b[1..], n);
          }
        }
        SortedUniqueByClasses(a[1..], b[1..]);
        assert a == [a[0]] + a[1..] && b == [b[0]] + b[1..];
      }
    }
  }

  /** The class of a list's first method is not empty. */
  lemma NonEmptyClass(s: seq<Method>)
    requires |s| > 0
    ensures WithArity(s, Arity(s[0])) != []
  {
    assert WithArity(s, Arity(s[0]))[0] == s[0];
  }

  /** In a sorted list starting above n, the class of n is empty. */
  lemma {:induction false} NoSmallerArity(s: seq<Method>, n: nat)
    requires SortedByArity(s) && |s| > 0 && n < Arity(s[0])
    ensures WithArity(s, n) == []
    decreases |s|
  {
    if |s| > 1 {
      SortedTail(s);
      assert Arity(s[0]) <= Arity(s[1]);
      NoSmallerArity(s[1..], n);
    }
  }

  /** Filtering keeps every arity class within the ceiling whole and in order, and drops the others. */
  lemma {:induction false} WithArityFilter(ms: seq<Method>, max: int, n: nat)
    ensures WithArity(Filter(ms, max), n) == if n <= max then WithArity(ms, n) else []
    decreases |ms|
  {
    if |ms| > 0 {
      WithArityFilter(ms[1..], max, n);
    }
  }

  /**
    `getMethods`: the methods within the parameter-count ceiling; above a
    ceiling of 1, stably sorted by parameter count.
   */
  function GetMethods(ms: seq<Method>, max: int): (r: seq<Method>)
    ensures multiset(r) == multiset(Filter(ms, max))
    ensures forall i :: 0 <= i < |r| ==> Arity(r[i]) <= max
    ensures max > 1 ==> SortedByArity(r)
    ensures max <= 1 ==> r == Filter(ms, max)
  {
    var f := Filter(ms, max);
    if max > 1 then
      var r := SortByArity(f);
      assert forall i :: 0 <= i < |r| ==> r[i] in multiset(f);
      r
    else f
  }

  /**
    Within the ceiling every arity class of the reflected methods survives
    whole and in order; above it, nothing does.
   */
  lemma GetMethodsClasses(ms: seq<Method>, max: int, n: nat)
    ensures WithArity(GetMethods(ms, max), n) == if n <= max then WithArity(ms, n) else []
  {
    WithArityFilter(ms, max, n);
    if max > 1 {
      SortIsStable(Filter(ms, max), n);
    }
  }

  /** Above a ceiling of 1 the result is THE stable sort: any sorted list with the same classes equals it. */
  lemma GetMethodsIsStableSort(ms: seq<Method>, max: int, other: seq<Method>)
    requires max > 1 && SortedByArity(other)
    requires forall n :: WithArity(other, n) == WithArity(Filter(ms, max), n)
    ensures GetMethods(ms, max) == other
  {
    var r := GetMethods(ms, max);
    forall n
      ensures WithArity(r, n) == WithArity(other, n)
    {
      SortIsStable(Filter(ms, max), n);
    }
    SortedUniqueByClasses(r, other);
  }

  /** The pool keys a successful method call consumes: the mapped name of every argument. */
  function Consumed(c: Config, argv: Entries): (ks: set<Key>)
    ensures forall i :: 0 <= i < |argv| && argv[i].0.KStr? ==> GetMapped(c, argv[i].0.s) in ks
    ensures forall k :: k in ks ==> exists i :: 0 <= i < |argv| && argv[i].0.KStr? && k == GetMapped(c, argv[i].0.s)
  {
    set i | 0 <= i < |argv| && argv[i].0.KStr? :: GetMapped(c, argv[i].0.s)
  }

  /**
    One method of the method phase: bind its parameters from the method
    input; a binding that fails for missing input or a forbidden null skips
    the method; any other failure escapes. A bound method consumes the
    mapped names of its arguments from the pool and is invoked.
   */
  function MethodStep(m: Method, pool: map<Key, Value>, target: Hydrated, c: Config,
                      methodInput: map<Key, Value>, methodConfig: Config, w: World): (r: Result<(map<Key, Value>, Hydrated), Error>)
    ensures r.Err? ==> CandidateError(r.error)
    ensures r.Ok? ==> r.value.0.Keys <= pool.Keys && r.value.1.props == target.props
    ensures r.Ok? ==> forall k :: k in r.value.0 ==> r.value.0[k] == pool[k]
    ensures BindParameters(m.params, methodInput, methodConfig, w).Ok? ==>
              var argv := BindParameters(m.params, methodInput, methodConfig, w).value;
              r == Ok((pool - Consumed(c, argv), target.(calls := target.calls + [Invocation(m.name, argv)])))
    ensures BindParameters(m.params, methodInput, methodConfig, w) in {Err(NoInputException), Err(NullValueException)} ==>
              r == Ok((pool, target))
    ensures BindParameters(m.params, methodInput, methodConfig, w).Err?
            && BindParameters(m.params, methodInput, methodConfig, w).error !in {NoInputException, NullValueException} ==>
              r == Err(BindParameters(m.params, methodInput, methodConfig, w).error)
  {
    match BindParameters(m.params, methodInput, methodConfig, w)
    case Ok(argv) => Ok((pool - Consumed(c, argv), target.(calls := target.calls + [Invocation(m.name, argv)])))
    case Err(e) => if e == NoInputException || e == NullValueException then Ok((pool, target)) else Err(e)
  }

  /** A parameter that takes a PHP array: no declared type, or an `array`, `iterable` or `mixed` candidate. */
  predicate AcceptsArray(s: Slot) {
    exists i :: 0 <= i < |s.candidates| && (s.candidates[i].kind.Untyped?
      || (s.candidates[i].kind.Builtin? && s.candidates[i].kind.name in {"array", "iterable", "mixed"}))
  }

  /**
    Whether `$method->invoke($target, $argv)` can run: it passes the whole
    vector as ONE positional argument, so a first parameter must take an
    array and every later one must have a default.
   */
  predicate TakesVectorAsOneArgument(m: Method) {
    |m.params| == 0
    || (AcceptsArray(m.params[0]) && forall i :: 1 <= i < |m.params| ==> m.params[i].defaultValue.Some?)
  }

  /**
    One method as the source writes it: `invoke` hands the bound vector to
    the method as its single first argument. A method whose parameters
    cannot take that call raises a TypeError (or an ArgumentCountError),
    which the `catch` does not cover, so it escapes hydration; otherwise
    the method is invoked with the vector as one argument.
   */
  function MethodStepAsWritten(m: Method, pool: map<Key, Value>, target: Hydrated, c: Config,
                               methodInput: map<Key, Value>, methodConfig: Config, w: World): (r: Result<(map<Key, Value>, Hydrated), Error>)
    ensures BindParameters(m.params, methodInput, methodConfig, w).Err? ==> r == MethodStep(m, pool, target, c, methodInput, methodConfig, w)
    ensures BindParameters(m.params, methodInput, methodConfig, w).Ok? && !TakesVectorAsOneArgument(m) ==> r == Err(EngineError)
    ensures BindParameters(m.params, methodInput, methodConfig, w).Ok? && TakesVectorAsOneArgument(m) ==>
              var argv := BindParameters(m.params, methodInput, methodConfig, w).value;
              r == Ok((pool - Consumed(c, argv), target.(calls := target.calls + [Invocation(m.name, [(KInt(0), Arr(argv))])])))
  {
    match BindParameters(m.params, methodInput, methodConfig, w)
    case Ok(argv) =>
      if TakesVectorAsOneArgument(m) then
        Ok((pool - Consumed(c, argv), target.(calls := target.calls + [Invocation(m.name, [(KInt(0), Arr(argv))])])))
      else Err(EngineError)
    case Err(e) => if e == NoInputException || e == NullValueException then Ok((pool, target)) else Err(e)
  }

  /**
    `setHello(string $hello)` of the access-count test class, its argument
    predefined so that binding succeeds: as written the `string` parameter
    receives the vector and the TypeError escapes; as intended the method is
    invoked with 'hello' set.
   */
  lemma SetterFailsAsWritten(w: World)
    ensures var m := Method("setHello", [Slot("hello", [Candidate(Builtin("string"), false)], None, Some("AccessCountTestClass"))]);
            var mc := Apply(Default(), SetPredefinedValues(map["hello" := Str("predefined")]));
            var pool := map[KStr("hello") := Str("world")];
            var target := Hydrated(map[], []);
            MethodStepAsWritten(m, pool, target, Default(), map[], mc, w) == Err(EngineError)
            && MethodStep(m, pool, target, Default(), map[], mc, w)
               == Ok((map[], Hydrated(map[], [Invocation("setHello", [(KStr("hello"), Str("predefined"))])])))
  {
    var m := Method("setHello", [Slot("hello", [Candidate(Builtin("string"), false)], None, Some("AccessCountTestClass"))]);
    var mc := Apply(Default(), SetPredefinedValues(map["hello" := Str("predefined")]));
    assert GetMapped(mc, "hello") == KStr("hello") && PredefinedFor(mc, KStr("hello")) == Some(Str("predefined"));
    assert Step(m.params[0], map[], mc, w, 0) == Ok((Str("predefined"), 0));
    BindUnfold(m.params, map[], mc, w, Bound([], 0));
    assert m.params[1..] == [];
    var argv := [(KStr("hello"), Str("predefined"))];
    assert Put([], KStr("hello"), Str("predefined")) == argv;
    assert BindParameters(m.params, map[], mc, w) == Ok(argv);
    assert !AcceptsArray(m.params[0]);
    assert Consumed(Default(), argv) == {KStr("hello")};
    assert map[KStr("hello") := Str("world")] - {KStr("hello")} == map[];
    var target := Hydrated(map[], []);
    assert target.calls + [Invocation("setHello", argv)] == [Invocation("setHello", argv)];
    assert MethodStepAsWritten(m, map[KStr("hello") := Str("world")], target, Default(), map[], mc, w) == Err(EngineError);
    assert MethodStep(m, map[KStr("hello") := Str("world")], target, Default(), map[], mc, w)
           == Ok((map[], Hydrated(map[], [Invocation("setHello", argv)])));
  }

  /** `processMethods`. */
  function ProcessMethods(ms: seq<Method>, pool: map<Key, Value>, target: Hydrated, c: Config,
                          methodInput: map<Key, Value>, methodConfig: Config, w: World): (r: Result<Phase, Error>)
    ensures r.Err? ==> CandidateError(r.error)
    ensures r.Ok? ==> r.value.pool.Keys <= pool.Keys && r.value.target.props == target.props
    ensures r.Ok? ==> forall k :: k in r.value.pool ==> r.value.pool[k] == pool[k]
    ensures r.Ok? && r.value.exhausted ==> |r.value.pool| == 0
    ensures |pool| == 0 && |ms| > 0 ==> r == Ok(Phase(pool, target, true))
    decreases |ms|
  {
    if |ms| == 0 then Ok(Phase(pool, target, false))
    else if |pool| == 0 then Ok(Phase(pool, target, true))
    else
      var (pool', target') :- MethodStep(ms[0], pool, target, c, methodInput, methodConfig, w);
      ProcessMethods(ms[1..], pool', target', c, methodInput, methodConfig, w)
  }

  /**
    One property of the property phase: skipped when its mapped name has no
    pool entry; assigned the predefined value for that name when there is
    one; otherwise assigned the resolved pool entry unless that is a
    forbidden null. The pool is never changed.
   */
  function PropertyStep(prop: Slot, pool: map<Key, Value>, target: Hydrated, c: Config, w: World): (r: Result<Hydrated, Error>)
    ensures r.Err? ==> CandidateError(r.error)
    ensures r.Ok? ==> r.value.calls == target.calls
    ensures r.Ok? ==> forall p :: p != prop.name && p in target.props ==> p in r.value.props && r.value.props[p] == target.props[p]
    ensures r.Ok? ==> r.value.props.Keys <= target.props.Keys + {prop.name}
    ensures GetMapped(c, prop.name) !in pool ==> r == Ok(target)
    ensures GetMapped(c, prop.name) in pool && PredefinedFor(c, GetMapped(c, prop.name)).Some? ==>
              r == Ok(target.(props := target.props[prop.name := PredefinedFor(c, GetMapped(c, prop.name)).value]))
    ensures GetMapped(c, prop.name) in pool && PredefinedFor(c, GetMapped(c, prop.name)).None? ==>
              var res := ResolveRaw(prop, pool[GetMapped(c, prop.name)], c, w);
              r == if res.Err? then Err(res.error)
                   else if res.value == Null && !c.nullIsAllowed then Ok(target)
                   else Ok(target.(props := target.props[prop.name := res.value]))
    ensures r.Ok? && prop.name in r.value.props && r.value.props[prop.name] == Null && !c.nullIsAllowed ==>
              r.value == target || PredefinedFor(c, GetMapped(c, prop.name)) == Some(Null)
  {
    var name := GetMapped(c, prop.name);
    if name !in pool then Ok(target)
    else match PredefinedFor(c, name)
      case Some(v) => Ok(target.(props := target.props[prop.name := v]))
      case None =>
        var v :- ResolveRaw(prop, pool[name], c, w);
        if v == Null && !c.nullIsAllowed then Ok(target)
        else Ok(target.(props := target.props[prop.name := v]))
  }

  /**
    One property as the source writes it: the pool entry is passed to
    `transformViaArgument` where a reflection object is declared, so a
    property that reaches that call raises a TypeError, an engine Error that
    nothing in the hydration catches.
   */
  function PropertyStepAsWritten(prop: Slot, pool: map<Key, Value>, target: Hydrated, c: Config, w: World): (r: Result<Hydrated, Error>)
    ensures GetMapped(c, prop.name) !in pool || PredefinedFor(c, GetMapped(c, prop.name)).Some? ==>
              r == PropertyStep(prop, pool, target, c, w)
    ensures GetMapped(c, prop.name) in pool && PredefinedFor(c, GetMapped(c, prop.name)).None? ==> r == Err(EngineError)
  {
    var name := GetMapped(c, prop.name);
    if name !in pool then Ok(target)
    else match PredefinedFor(c, name)
      case Some(v) => Ok(target.(props := target.props[prop.name := v]))
      case None => Err(EngineError)
  }

  /**
    The property as written fails where the intended resolution assigns:
    an `int $hello` with the pool entry `hello => '1'`, which resolves to 1.
   */
  lemma PropertyStepAsWrittenFails(target: Hydrated, w: World)
    ensures var prop := Slot("hello", [Candidate(Builtin("int"), false)], None, None);
            var pool := map[KStr("hello") := Str("1")];
            PropertyStepAsWritten(prop, pool, target, Default(), w) == Err(EngineError)
            && PropertyStep(prop, pool, target, Default(), w) == Ok(target.(props := target.props["hello" := Int(1)]))
  {
    var prop := Slot("hello", [Candidate(Builtin("int"), false)], None, None);
    assert GetMapped(Default(), "hello") == KStr("hello") && PredefinedFor(Default(), KStr("hello")).None?;
    assert IntToString(1) == "1" && "1" == IntToString(1) + "";
    LeadingIntOfNumeral(1, "");
    assert TransformViaType(Str("1"), prop.candidates[0], prop, Default(), w) == Ok(Int(1));
    assert ResolveRaw(prop, Str("1"), Default(), w) == Ok(Int(1));
  }

  /** `processProperties`. */
  function ProcessProperties(props: seq<Slot>, pool: map<Key, Value>, target: Hydrated, c: Config, w: World): (r: Result<Phase, Error>)
    ensures r.Err? ==> CandidateError(r.error)
    ensures r.Ok? ==> r.value.pool == pool && r.value.target.calls == target.calls
    ensures |pool| == 0 && |props| > 0 ==> r == Ok(Phase(pool, target, true))
    ensures r.Ok? && |pool| > 0 ==> !r.value.exhausted
    decreases |props|
  {
    if |props| == 0 then Ok(Phase(pool, target, false))
    else if |pool| == 0 then Ok(Phase(pool, target, true))
    else
      var target' :- PropertyStep(props[0], pool, target, c, w);
      ProcessProperties(props[1..], pool, target', c, w)
  }

  /** A property's assigned value, None while it is unassigned. */
  function PropOf(h: Hydrated, name: string): Option<Value> {
    if name in h.props then Some(h.props[name]) else None
  }

  /** A property step depends on the target only through the property's own value. */
  lemma PropertyStepOwnName(prop: Slot, pool: map<Key, Value>, t: Hydrated, t': Hydrated, c: Config, w: World)
    requires PropOf(t, prop.name) == PropOf(t', prop.name)
    ensures PropertyStep(prop, pool, t, c, w).Ok? <==> PropertyStep(prop, pool, t', c, w).Ok?
    ensures PropertyStep(prop, pool, t, c, w).Ok? ==>
              PropOf(PropertyStep(prop, pool, t, c, w).value, prop.name) == PropOf(PropertyStep(prop, pool, t', c, w).value, prop.name)
  {
  }

  /**
    With distinct property names the property phase is per property: each
    ends with what its own step gives on the original target, and a name no
    property has keeps its value.
   */
  lemma {:induction false} PropertyPhaseIsPerProperty(props: seq<Slot>, pool: map<Key, Value>, target: Hydrated, c: Config, w: World)
    requires DistinctNames(props)
    requires ProcessProperties(props, pool, target, c, w).Ok?
    ensures var out := ProcessProperties(props, pool, target, c, w).value.target;
            forall i :: 0 <= i < |props| ==>
              PropertyStep(props[i], pool, target, c, w).Ok?
              && PropOf(out, props[i].name) == PropOf(PropertyStep(props[i], pool, target, c, w).value, props[i].name)
    ensures var out := ProcessProperties(props, pool, target, c, w).value.target;
            forall n :: (forall i :: 0 <= i < |props| ==> props[i].name != n) ==> PropOf(out, n) == PropOf(target, n)
    decreases |props|
  {
    if |props| == 0 {
    } else if |pool| == 0 {
      forall i | 0 <= i < |props|
        ensures PropertyStep(props[i], pool, target, c, w) == Ok(target)
      {
      }
    } else {
      var t1 := PropertyStep(props[0], pool, target, c, w).value;
      var rest := props[1..];
      assert DistinctNames(rest) by {
        forall i, j | 0 <= i < j < |rest| ensures rest[i].name != rest[j].name {
          assert rest[i] == props[i + 1] && rest[j] == props[j + 1];
        }
      }
      PropertyPhaseIsPerProperty(rest, pool, t1, c, w);
      var out := ProcessProperties(props, pool, target, c, w).value.target;
      assert out == ProcessProperties(rest, pool, t1, c, w).value.target;
      forall i | 0 <= i < |props|
        ensures PropertyStep(props[i], pool, target, c, w).Ok?
        ensures PropOf(out, props[i].name) == PropOf(PropertyStep(props[i], pool, target, c, w).value, props[i].name)
      {
        if i == 0 {
          forall k | 0 <= k < |rest| ensures rest[k].name != props[0].name {
            assert rest[k] == props[k + 1];
          }
        } else {
          assert rest[i - 1] == props[i];
          assert props[0].name != props[i].name;
          assert PropOf(t1, props[i].name) == PropOf(target, props[i].name);
          PropertyStepOwnName(props[i], pool, t1, target, c, w);
        }
      }
      forall n | forall i :: 0 <= i < |props| ==> props[i].name != n
        ensures PropOf(out, n) == PropOf(target, n)
      {
        assert props[0].name != n;
        forall k | 0 <= k < |rest| ensures rest[k].name != n {
          assert rest[k] == props[k + 1];
        }
      }
    }
  }

  /**
    `objectTransform`: the pool without positional keys, then both phases
    in the configured order, the second skipped once the pool ran empty.
   */
  function ObjectTransform(input: map<Key, Value>, methods: seq<Method>, props: seq<Slot>, target: Hydrated,
                           c: Config, methodInput: map<Key, Value>, methodConfig: Config, w: World): (r: Result<Hydrated, Error>)
    ensures r.Err? ==> CandidateError(r.error)
  {
    var pool := StringKeysOnly(input);
    var ms := GetMethods(methods, c.maxParameterCount);
    if c.methodsFirst then
      var first :- ProcessMethods(ms, pool, target, c, methodInput, methodConfig, w);
      if first.exhausted then Ok(first.target)
      else
        var second :- ProcessProperties(props, first.pool, first.target, c, w);
        Ok(second.target)
    else
      var first :- ProcessProperties(props, pool, target, c, w);
      if first.exhausted then Ok(first.target)
      else
        var second :- ProcessMethods(ms, first.pool, first.target, c, methodInput, methodConfig, w);
        Ok(second.target)
  }

  /** The method phase keeps the existing invocations and only appends. */
  lemma {:induction false} MethodPhaseAppends(ms: seq<Method>, pool: map<Key, Value>, target: Hydrated, c: Config,
                                              methodInput: map<Key, Value>, methodConfig: Config, w: World)
    requires ProcessMethods(ms, pool, target, c, methodInput, methodConfig, w).Ok?
    ensures var out := ProcessMethods(ms, pool, target, c, methodInput, methodConfig, w).value.target.calls;
            |target.calls| <= |out| && out[..|target.calls|] == target.calls
    decreases |ms|
  {
    if |ms| > 0 && |pool| > 0 {
      var step := ProcessMethodsUnfold(ms, pool, target, c, methodInput, methodConfig, w);
      MethodPhaseAppends(ms[1..], step.0, step.1, c, methodInput, methodConfig, w);
      PrefixOfPrefix(target.calls, step.1.calls, ProcessMethods(ms[1..], step.0, step.1, c, methodInput, methodConfig, w).value.target.calls);
    }
  }

  /** A prefix of a prefix is a prefix. */
  lemma PrefixOfPrefix(a: seq<Invocation>, b: seq<Invocation>, out: seq<Invocation>)
    requires exists t :: b == a + t
    requires |b| <= |out| && out[..|b|] == b
    ensures |a| <= |out| && out[..|a|] == a
  {
    assert out[..|b|][..|a|] == out[..|a|];
  }

  /** Every invocation the method phase appends is of one of its methods. */
  lemma {:induction false} MethodPhaseInvokesItsMethods(ms: seq<Method>, pool: map<Key, Value>, target: Hydrated, c: Config,
                                                        methodInput: map<Key, Value>, methodConfig: Config, w: World)
    requires ProcessMethods(ms, pool, target, c, methodInput, methodConfig, w).Ok?
    ensures var out := ProcessMethods(ms, pool, target, c, methodInput, methodConfig, w).value.target.calls;
            forall i :: |target.calls| <= i < |out| ==> exists j :: 0 <= j < |ms| && ms[j].name == out[i].name
    decreases |ms|
  {
    if |ms| > 0 && |pool| > 0 {
      var step := ProcessMethodsUnfold(ms, pool, target, c, methodInput, methodConfig, w);
      MethodPhaseInvokesItsMethods(ms[1..], step.0, step.1, c, methodInput, methodConfig, w);
      MethodPhaseAppends(ms[1..], step.0, step.1, c, methodInput, methodConfig, w);
      NamesAfterStep(ms, methodInput, methodConfig, w, target.calls, step.1.calls,
                     ProcessMethods(ms[1..], step.0, step.1, c, methodInput, methodConfig, w).value.target.calls);
    }
  }

  /** The names appended by the first method's step and by the rest are all names of the methods. */
  lemma NamesAfterStep(ms: seq<Method>, methodInput: map<Key, Value>, methodConfig: Config, w: World,
                       before: seq<Invocation>, mid: seq<Invocation>, out: seq<Invocation>)
    requires |ms| > 0
    requires mid == before + Invoked(ms[0], methodInput, methodConfig, w)
    requires |mid| <= |out| && out[..|mid|] == mid
    requires forall i :: |mid| <= i < |out| ==> exists j :: 0 <= j < |ms[1..]| && ms[1..][j].name == out[i].name
    ensures forall i :: |before| <= i < |out| ==> exists j :: 0 <= j < |ms| && ms[j].name == out[i].name
  {
    forall i | |before| <= i < |out|
      ensures exists j :: 0 <= j < |ms| && ms[j].name == out[i].name
    {
      if i < |mid| {
        assert out[i] == out[..|mid|][i] == mid[i];
        assert ms[0].name == out[i].name;
      } else {
        var j :| 0 <= j < |ms[1..]| && ms[1..][j].name == out[i].name;
        assert ms[j + 1] == ms[1..][j];
      }
    }
  }

  /** Every pool key the method phase removes is a mapped argument name of an invocation it appended. */
  lemma {:induction false} MethodPhaseConsumes(ms: seq<Method>, pool: map<Key, Value>, target: Hydrated, c: Config,
                                               methodInput: map<Key, Value>, methodConfig: Config, w: World)
    requires ProcessMethods(ms, pool, target, c, methodInput, methodConfig, w).Ok?
    ensures var r := ProcessMethods(ms, pool, target, c, methodInput, methodConfig, w).value;
            forall k :: k in pool && k !in r.pool ==>
              exists i :: |target.calls| <= i < |r.target.calls| && k in Consumed(c, r.target.calls[i].argv)
    decreases |ms|
  {
    if |ms| > 0 && |pool| > 0 {
      var (pool', target') := MethodStep(ms[0], pool, target, c, methodInput, methodConfig, w).value;
      MethodPhaseConsumes(ms[1..], pool', target', c, methodInput, methodConfig, w);
      MethodPhaseAppends(ms[1..], pool', target', c, methodInput, methodConfig, w);
      var r := ProcessMethods(ms[1..], pool', target', c, methodInput, methodConfig, w).value;
      var n := |target.calls|;
      forall k | k in pool && k !in r.pool
        ensures exists i :: n <= i < |r.target.calls| && k in Consumed(c, r.target.calls[i].argv)
      {
        if k !in pool' {
          var argv := BindParameters(ms[0].params, methodInput, methodConfig, w).value;
          assert target'.calls == target.calls + [Invocation(ms[0].name, argv)];
          assert r.target.calls[n] == r.target.calls[..|target'.calls|][n] == target'.calls[n];
        }
      }
    }
  }

  /** The invocation a method gets when its parameters bind, none otherwise. */
  function Invoked(m: Method, methodInput: map<Key, Value>, methodConfig: Config, w: World): seq<Invocation> {
    match BindParameters(m.params, methodInput, methodConfig, w)
    case Ok(argv) => [Invocation(m.name, argv)]
    case Err(_) => []
  }

  /** The invocations of the methods whose parameters bind, in the given order. */
  function Bindable(ms: seq<Method>, methodInput: map<Key, Value>, methodConfig: Config, w: World): (calls: seq<Invocation>)
    ensures |calls| <= |ms|
  {
    if |ms| == 0 then [] else Invoked(ms[0], methodInput, methodConfig, w) + Bindable(ms[1..], methodInput, methodConfig, w)
  }

  /**
    The method phase invokes exactly the methods whose parameters bind, in
    order, for as long as the pool lasts: the invocations it appends are
    those of a prefix of its methods, all of them unless the pool ran empty.
   */
  lemma {:induction false} MethodPhaseInvokesBindable(ms: seq<Method>, pool: map<Key, Value>, target: Hydrated, c: Config,
                                                      methodInput: map<Key, Value>, methodConfig: Config, w: World)
    requires ProcessMethods(ms, pool, target, c, methodInput, methodConfig, w).Ok?
    ensures var r := ProcessMethods(ms, pool, target, c, methodInput, methodConfig, w).value;
            exists j :: 0 <= j <= |ms| && r.target.calls == target.calls + Bindable(ms[..j], methodInput, methodConfig, w)
                        && (j < |ms| ==> r.exhausted)
    decreases |ms|
  {
    var r := ProcessMethods(ms, pool, target, c, methodInput, methodConfig, w).value;
    if |ms| == 0 || |pool| == 0 {
      assert ms[..0] == [];
      assert r.target.calls == target.calls + Bindable(ms[..0], methodInput, methodConfig, w);
    } else {
      var step := ProcessMethodsUnfold(ms, pool, target, c, methodInput, methodConfig, w);
      MethodPhaseInvokesBindable(ms[1..], step.0, step.1, c, methodInput, methodConfig, w);
      ExtendInvoked(ms, methodInput, methodConfig, w, target.calls, step.1.calls, r.target.calls, r.exhausted);
    }
  }

  /** One iteration of the method phase on a non-empty pool: the first step, then the rest. */
  lemma ProcessMethodsUnfold(ms: seq<Method>, pool: map<Key, Value>, target: Hydrated, c: Config,
                             methodInput: map<Key, Value>, methodConfig: Config, w: World)
    returns (step: (map<Key, Value>, Hydrated))
    requires |ms| > 0 && |pool| > 0
    requires ProcessMethods(ms, pool, target, c, methodInput, methodConfig, w).Ok?
    ensures MethodStep(ms[0], pool, target, c, methodInput, methodConfig, w) == Ok(step)
    ensures step.1.calls == target.calls + Invoked(ms[0], methodInput, methodConfig, w)
    ensures ProcessMethods(ms, pool, target, c, methodInput, methodConfig, w)
            == ProcessMethods(ms[1..], step.0, step.1, c, methodInput, methodConfig, w)
  {
    step := MethodStep(ms[0], pool, target, c, methodInput, methodConfig, w).value;
    MethodStepInvokes(ms[0], pool, target, c, methodInput, methodConfig, w);
  }

  /** A prefix witness for the rest of the methods, after the first method's own invocation, is one for all of them. */
  lemma ExtendInvoked(ms: seq<Method>, methodInput: map<Key, Value>, methodConfig: Config, w: World,
                      before: seq<Invocation>, mid: seq<Invocation>, after: seq<Invocation>, exhausted: bool)
    requires |ms| > 0
    requires mid == before + Invoked(ms[0], methodInput, methodConfig, w)
    requires exists j :: 0 <= j <= |ms[1..]| && after == mid + Bindable(ms[1..][..j], methodInput, methodConfig, w)
                         && (j < |ms[1..]| ==> exhausted)
    ensures exists j :: 0 <= j <= |ms| && after == before + Bindable(ms[..j], methodInput, methodConfig, w)
                        && (j < |ms| ==> exhausted)
  {
    var j' :| 0 <= j' <= |ms[1..]| && after == mid + Bindable(ms[1..][..j'], methodInput, methodConfig, w)
              && (j' < |ms[1..]| ==> exhausted);
    CallsAfterStep(ms, j', methodInput, methodConfig, w, before, mid, after);
    assert j' + 1 <= |ms| && after == before + Bindable(ms[..j' + 1], methodInput, methodConfig, w);
  }

  /** Unless the pool ran empty, the method phase invokes every method whose parameters bind, in order. */
  lemma MethodPhaseInvokesAllBindable(ms: seq<Method>, pool: map<Key, Value>, target: Hydrated, c: Config,
                                      methodInput: map<Key, Value>, methodConfig: Config, w: World)
    requires ProcessMethods(ms, pool, target, c, methodInput, methodConfig, w).Ok?
    requires !ProcessMethods(ms, pool, target, c, methodInput, methodConfig, w).value.exhausted
    ensures ProcessMethods(ms, pool, target, c, methodInput, methodConfig, w).value.target.calls
            == target.calls + Bindable(ms, methodInput, methodConfig, w)
  {
    MethodPhaseInvokesBindable(ms, pool, target, c, methodInput, methodConfig, w);
    assert ms[..|ms|] == ms;
  }

  lemma ConcatAssoc<T>(a: seq<T>, b: seq<T>, c: seq<T>)
    ensures (a + b) + c == a + (b + c)
  {
  }

  /** A successful method step appends exactly the method's own invocation, if it binds. */
  lemma MethodStepInvokes(m: Method, pool: map<Key, Value>, target: Hydrated, c: Config,
                          methodInput: map<Key, Value>, methodConfig: Config, w: World)
    requires MethodStep(m, pool, target, c, methodInput, methodConfig, w).Ok?
    ensures MethodStep(m, pool, target, c, methodInput, methodConfig, w).value.1.calls
            == target.calls + Invoked(m, methodInput, methodConfig, w)
  {
  }

  lemma CallsAfterStep(ms: seq<Method>, j: nat, methodInput: map<Key, Value>, methodConfig: Config, w: World,
                       before: seq<Invocation>, mid: seq<Invocation>, after: seq<Invocation>)
    requires j < |ms|
    requires mid == before + Invoked(ms[0], methodInput, methodConfig, w)
    requires after == mid + Bindable(ms[1..][..j], methodInput, methodConfig, w)
    ensures after == before + Bindable(ms[..j + 1], methodInput, methodConfig, w)
  {
    BindablePrefix(ms, j, methodInput, methodConfig, w);
    ConcatAssoc(before, Invoked(ms[0], methodInput, methodConfig, w), Bindable(ms[1..][..j], methodInput, methodConfig, w));
  }

  lemma BindablePrefix(ms: seq<Method>, j: nat, methodInput: map<Key, Value>, methodConfig: Config, w: World)
    requires j < |ms|
    ensures Bindable(ms[..j + 1], methodInput, methodConfig, w)
            == Invoked(ms[0], methodInput, methodConfig, w) + Bindable(ms[1..][..j], methodInput, methodConfig, w)
  {
    var pre := ms[..j + 1];
    assert pre[0] == ms[0] && pre[1..] == ms[1..][..j];
  }

  /**
    The two phase orders of `objectTransform`. Methods first: the property
    phase starts from the pool the method phase left and the invocations it
    made. Properties first: the property phase consumes nothing, so the
    method phase starts from the whole pool and the assigned properties.
    Either way an error of the first phase escapes.
   */
  lemma PhaseOrder(input: map<Key, Value>, methods: seq<Method>, props: seq<Slot>, target: Hydrated,
                   c: Config, methodInput: map<Key, Value>, methodConfig: Config, w: World)
    ensures var pool := StringKeysOnly(input);
            var ms := GetMethods(methods, c.maxParameterCount);
            var first := ProcessMethods(ms, pool, target, c, methodInput, methodConfig, w);
            c.methodsFirst ==>
              ObjectTransform(input, methods, props, target, c, methodInput, methodConfig, w)
              == if first.Err? then Err(first.error)
                 else if first.value.exhausted then Ok(first.value.target)
                 else match ProcessProperties(props, first.value.pool, first.value.target, c, w)
                      case Ok(second) => Ok(second.target)
                      case Err(e) => Err(e)
    ensures var pool := StringKeysOnly(input);
            var ms := GetMethods(methods, c.maxParameterCount);
            var first := ProcessProperties(props, pool, target, c, w);
            !c.methodsFirst ==>
              ObjectTransform(input, methods, props, target, c, methodInput, methodConfig, w)
              == if first.Err? then Err(first.error)
                 else if |pool| == 0 && |props| > 0 then Ok(target)
                 else match ProcessMethods(ms, pool, first.value.target, c, methodInput, methodConfig, w)
                      case Ok(second) => Ok(second.target)
                      case Err(e) => Err(e)
  {
  }

  /**
    With properties first and a non-empty pool, the hydration assigns what
    the property phase assigns and then invokes the bindable methods within
    the ceiling, in `getMethods` order, for as long as the pool lasts.
   */
  lemma PropertiesFirstInvokesBindable(input: map<Key, Value>, methods: seq<Method>, props: seq<Slot>, target: Hydrated,
                                       c: Config, methodInput: map<Key, Value>, methodConfig: Config, w: World)
    requires !c.methodsFirst && |StringKeysOnly(input)| > 0
    requires ObjectTransform(input, methods, props, target, c, methodInput, methodConfig, w).Ok?
    ensures var pool := StringKeysOnly(input);
            var ms := GetMethods(methods, c.maxParameterCount);
            var out := ObjectTransform(input, methods, props, target, c, methodInput, methodConfig, w).value;
            ProcessProperties(props, pool, target, c, w).Ok?
            && out.props == ProcessProperties(props, pool, target, c, w).value.target.props
            && exists j :: 0 <= j <= |ms| && out.calls == target.calls + Bindable(ms[..j], methodInput, methodConfig, w)
  {
    var pool := StringKeysOnly(input);
    var ms := GetMethods(methods, c.maxParameterCount);
    var first := ProcessProperties(props, pool, target, c, w).value;
    MethodPhaseInvokesBindable(ms, pool, first.target, c, methodInput, methodConfig, w);
  }

  /**
    An input without string keys leaves the target as it was: the first
    member of either phase finds the pool empty and ends the hydration.
   */
  lemma EmptyPoolLeavesTarget(input: map<Key, Value>, methods: seq<Method>, props: seq<Slot>, target: Hydrated,
                              c: Config, methodInput: map<Key, Value>, methodConfig: Config, w: World)
    requires forall k :: k in input ==> k.KInt?
    ensures ObjectTransform(input, methods, props, target, c, methodInput, methodConfig, w) == Ok(target)
  {
    var pool := StringKeysOnly(input);
    assert pool == map[];
  }

  /**
    Once the pool runs empty in the method phase, the property phase is
    skipped: no property is assigned.
   */
  lemma ExhaustionSkipsProperties(input: map<Key, Value>, methods: seq<Method>, props: seq<Slot>, target: Hydrated,
                                  c: Config, methodInput: map<Key, Value>, methodConfig: Config, w: World)
    requires c.methodsFirst
    requires var r := ProcessMethods(GetMethods(methods, c.maxParameterCount), StringKeysOnly(input), target, c, methodInput, methodConfig, w);
             r.Ok? && r.value.exhausted
    ensures ObjectTransform(input, methods, props, target, c, methodInput, methodConfig, w).Ok?
    ensures ObjectTransform(input, methods, props, target, c, methodInput, methodConfig, w).value.props == target.props
  {
  }

  /** Every method `getMethods` keeps is a reflected method within the ceiling. */
  lemma GetMethodsMember(methods: seq<Method>, max: int, j: nat)
    requires j < |GetMethods(methods, max)|
    ensures GetMethods(methods, max)[j] in methods && Arity(GetMethods(methods, max)[j]) <= max
  {
    var ms := GetMethods(methods, max);
    assert ms[j] in multiset(ms);
    assert ms[j] in multiset(Filter(methods, max));
  }

  /** A reflected method within the ceiling carries this name. */
  predicate NamedWithin(methods: seq<Method>, ceiling: int, name: string) {
    exists m :: m in methods && m.name == name && Arity(m) <= ceiling
  }

  /**
    The method phase only appends invocations, and each is of a reflected
    method within the parameter-count ceiling.
   */
  lemma InvocationsWithinCeiling(ms: seq<Method>, methods: seq<Method>, pool: map<Key, Value>, target: Hydrated,
                                 c: Config, methodInput: map<Key, Value>, methodConfig: Config, w: World)
    requires ms == GetMethods(methods, c.maxParameterCount)
    requires ProcessMethods(ms, pool, target, c, methodInput, methodConfig, w).Ok?
    ensures var out := ProcessMethods(ms, pool, target, c, methodInput, methodConfig, w).value.target.calls;
            |target.calls| <= |out| && out[..|target.calls|] == target.calls
            && forall i :: |target.calls| <= i < |out| ==> NamedWithin(methods, c.maxParameterCount, out[i].name)
  {
    MethodPhaseAppends(ms, pool, target, c, methodInput, methodConfig, w);
    MethodPhaseInvokesItsMethods(ms, pool, target, c, methodInput, methodConfig, w);
    NamesWithinCeiling(ms, methods, c.maxParameterCount, |target.calls|,
                       ProcessMethods(ms, pool, target, c, methodInput, methodConfig, w).value.target.calls);
  }

  /** Invocations named after kept methods are named after reflected methods within the ceiling. */
  lemma NamesWithinCeiling(ms: seq<Method>, methods: seq<Method>, ceiling: int, from: nat, out: seq<Invocation>)
    requires ms == GetMethods(methods, ceiling)
    requires forall i :: from <= i < |out| ==> exists j :: 0 <= j < |ms| && ms[j].name == out[i].name
    ensures forall i :: from <= i < |out| ==> NamedWithin(methods, ceiling, out[i].name)
  {
    forall i | from <= i < |out|
      ensures NamedWithin(methods, ceiling, out[i].name)
    {
      var j :| 0 <= j < |ms| && ms[j].name == out[i].name;
      GetMethodsMember(methods, ceiling, j);
      assert ms[j] in methods && ms[j].name == out[i].name && Arity(ms[j]) <= ceiling;
    }
  }
}

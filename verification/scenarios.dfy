/**
  Concrete runs of the model on the repository's own test data: the input
  map of `TestParameterTransformer::getInput` and the slots of its
  `helloWorld` fixture, with the values the code produces (some test
  assertions compare loosely and accept them).
 */
module Scenarios {
  import opened Wrappers
  import opened PhpValues
  import opened PhpArray
  import opened Configuration
  import opened Reflection
  import opened Coercion
  import opened InputProvider
  import opened ArgumentTransformer
  import opened CallableTransformer

  /** The test's input: named and positional entries, with a gap at position 1. */
  function TestInput(): map<Key, Value> {
    map[KStr("hello") := Str("world"), KInt(0) := Str("deep sea"), KStr("earc") := Str("parameter-transformer"),
        KInt(3) := Int(42), KStr("lucky") := Str("man"), KInt(5) := Str("crazy horse"),
        KStr("key23") := Arr([(KInt(0), Str("fifty")), (KInt(2), Int(2))]), KInt(2) := Str("last effort 42")]
  }

  /** A world with no classes and no factory services. */
  function EmptyWorld(): World {
    World(map[], (_, v) => v, [], FloatOps(_ => 0, _ => 0, _ => true, _ => ""), (_, v) => v)
  }

  function Scalar(name: string, typeName: string, nullable: bool): Slot {
    Slot(name, [Candidate(Builtin(typeName), nullable)], None, None)
  }

  /** `?string $hello`. */
  function Hello(): Slot {
    Scalar("hello", "string", true)
  }

  /** A string slot keeps any text but the literal 'null'. */
  lemma StringSlotKeepsText(nullable: bool, name: string, text: string, c: Config)
    requires text != "null"
    ensures ResolveRaw(Scalar(name, "string", nullable), Str(text), c, EmptyWorld()) == Ok(Str(text))
  {
    var slot := Scalar(name, "string", nullable);
    assert TransformViaType(Str(text), slot.candidates[0], slot, c, EmptyWorld()) == Ok(Str(text));
  }

  /** A mapping to an existing position reads that position: 'crazy horse'. */
  lemma MappingToPositionReadsIt()
    ensures Transform(Hello(), New(TestInput(), Apply(Default(), SetMapping(map["hello" := KInt(5)]))), EmptyWorld()).1
            == Ok(Str("crazy horse"))
  {
    var p := New(TestInput(), Apply(Default(), SetMapping(map["hello" := KInt(5)])));
    assert GetMapped(p.config, "hello") == KInt(5);
    assert KInt(5) in p.input && p.input[KInt(5)] == Str("crazy horse");
    assert GetInput(p, "hello").1 == Ok(Str("crazy horse"));
    StringSlotKeepsText(true, "hello", "crazy horse", p.config);
  }

  /**
    With `getMapped` as declared, none of the mapping runs reaches the
    lookup: each mapping to a position is a TypeError.
   */
  lemma MappingRunsFailAsWritten()
    ensures TransformAsWritten(Hello(), New(TestInput(), Apply(Default(), SetMapping(map["hello" := KInt(5)]))), EmptyWorld()).1
            == Err(EngineError)
    ensures TransformAsWritten(Hello(), New(TestInput(), Apply(Default(), SetMapping(map["hello" := KInt(7)]))), EmptyWorld()).1
            == Err(EngineError)
    ensures var c := Apply(Apply(Default(), SetMapping(map["hello" := KInt(7)])), SetNoInputIsAllowed(true));
            TransformAsWritten(Hello(), New(TestInput(), c), EmptyWorld()).1 == Err(EngineError)
  {
    var c5 := Apply(Default(), SetMapping(map["hello" := KInt(5)]));
    var c7 := Apply(Default(), SetMapping(map["hello" := KInt(7)]));
    assert c5.mapping == map["hello" := KInt(5)] && c7.mapping == map["hello" := KInt(7)];
    PositionMappingFails(c5);
    PositionMappingFails(c7);
    PositionMappingFails(Apply(c7, SetNoInputIsAllowed(true)));
  }

  /** A configuration that maps 'hello' to a position fails the as-written transform of `$hello`. */
  lemma PositionMappingFails(c: Config)
    requires "hello" in c.mapping && c.mapping["hello"].KInt?
    ensures TransformAsWritten(Hello(), New(TestInput(), c), EmptyWorld()).1 == Err(EngineError)
  {
    assert New(TestInput(), c).config == c;
  }

  /**
    A mapping to a missing position falls back to the cursor: 'deep sea'
    from position 0; the next lookup finds position 1 empty and fails.
   */
  lemma GapAfterFirstPosition()
    ensures var p := New(TestInput(), Apply(Default(), SetMapping(map["hello" := KInt(7)])));
            var first := Transform(Hello(), p, EmptyWorld());
            first.1 == Ok(Str("deep sea")) && first.0.pos == 1
            && Transform(Hello(), first.0, EmptyWorld()).1 == Err(NoInputException)
  {
    var p := New(TestInput(), Apply(Default(), SetMapping(map["hello" := KInt(7)])));
    FirstPositionRead(p);
    var q := Transform(Hello(), p, EmptyWorld()).0;
    assert q.input == p.input && q.pos == 1 && q.config == p.config;
    assert KInt(7) !in q.input && KInt(1) !in q.input;
    assert GetInput(q, "hello").1 == Err(NoInputException);
  }

  /** With 'hello' mapped to the missing position 7, the first lookup reads position 0 and commits it. */
  lemma FirstPositionRead(p: Provider)
    requires p.input == TestInput() && p.pos == 0 && p.lastInputKey.None?
    requires GetMapped(p.config, "hello") == KInt(7)
    ensures Transform(Hello(), p, EmptyWorld()).1 == Ok(Str("deep sea"))
    ensures Transform(Hello(), p, EmptyWorld()).0 == p.(pos := 1)
  {
    assert KInt(7) !in p.input && KInt(0) in p.input && p.input[KInt(0)] == Str("deep sea");
    assert GetInput(p, "hello") == (p.(lastInputKey := Some(KInt(0))), Ok(Str("deep sea")));
    StringSlotKeepsText(true, "hello", "deep sea", p.config);
  }

  /**
    With missing input allowed, the second lookup yields null, which the
    `?string` candidate casts to "" (the test's loose comparison with null
    accepts it).
   */
  lemma GapWithNoInputAllowed()
    ensures var c := Apply(Apply(Default(), SetMapping(map["hello" := KInt(7)])), SetNoInputIsAllowed(true));
            var first := Transform(Hello(), New(TestInput(), c), EmptyWorld());
            first.1 == Ok(Str("deep sea"))
            && Transform(Hello(), first.0, EmptyWorld()).1 == Ok(Str(""))
  {
    var c := Apply(Apply(Default(), SetMapping(map["hello" := KInt(7)])), SetNoInputIsAllowed(true));
    var p := New(TestInput(), c);
    FirstPositionRead(p);
    var q := Transform(Hello(), p, EmptyWorld()).0;
    assert q.input == TestInput() && q.pos == 1 && q.config == c;
    assert GetMapped(c, "hello") == KInt(7);
    assert KInt(7) !in q.input && KInt(1) !in q.input;
    assert GetInput(q, "hello") == (q, Ok(Null));
    NullableStringOfNull(c);
  }

  /** The `?string` candidate casts a missing (null) input to "". */
  lemma NullableStringOfNull(c: Config)
    ensures ResolveRaw(Hello(), Null, c, EmptyWorld()) == Ok(Str(""))
  {
    assert TransformViaType(Null, Hello().candidates[0], Hello(), c, EmptyWorld()) == Ok(Str(""));
  }

  /**
    The literal 'null': a nullable string slot turns it into null and casts
    that to ""; a non-nullable one keeps the text.
   */
  lemma NullLiteralCases()
    ensures Transform(Hello(), New(map[KStr("hello") := Str("null")], Default()), EmptyWorld()).1 == Ok(Str(""))
    ensures Transform(Scalar("string", "string", false), New(map[KStr("string") := Str("null")], Default()), EmptyWorld()).1
            == Ok(Str("null"))
  {
  }

  /** `bool` follows PHP truthiness: the text 'false' is true. */
  lemma FalseTextIsTrue()
    ensures Transform(Scalar("bool", "bool", false), New(map[KStr("bool") := Str("false")], Default()), EmptyWorld()).1
            == Ok(Bool(true))
  {
  }

  /** An `int` slot returns the integer cast of any value that cast changes. */
  lemma IntSlotCasts(name: string, v: Value, c: Config)
    requires v != Int(ToInt(v, EmptyWorld().floats))
    ensures ResolveRaw(Scalar(name, "int", false), v, c, EmptyWorld()) == Ok(Int(ToInt(v, EmptyWorld().floats)))
  {
    var slot := Scalar(name, "int", false);
    assert TransformViaType(v, slot.candidates[0], slot, c, EmptyWorld()) == Ok(Int(ToInt(v, EmptyWorld().floats)));
  }

  /**
    A consumed entry is gone: the same `int` slot reads 23, then finds
    nothing and casts the null to 0 (which the test compares loosely with
    null).
   */
  lemma ConsumedEntryIsGone()
    ensures var c := ApplyAll(Default(), [SetNoInputIsAllowed(true), SetNullIsAllowed(true)]);
            var slot := Scalar("int", "int", false);
            var first := Transform(slot, New(map[KStr("int") := Str("23 times bla bla")], c), EmptyWorld());
            first.1 == Ok(Int(23)) && first.0.input == map[]
            && Transform(slot, first.0, EmptyWorld()).1 == Ok(Int(0))
  {
    var c := ApplyAll(Default(), [SetNoInputIsAllowed(true), SetNullIsAllowed(true)]);
    assert c == Apply(Apply(Default(), SetNoInputIsAllowed(true)), SetNullIsAllowed(true)) by {
      assert [SetNoInputIsAllowed(true), SetNullIsAllowed(true)][1..] == [SetNullIsAllowed(true)];
    }
    var slot := Scalar("int", "int", false);
    var p := New(map[KStr("int") := Str("23 times bla bla")], c);
    assert GetMapped(c, "int") == KStr("int");
    assert GetInput(p, "int") == (p.(lastInputKey := Some(KStr("int"))), Ok(Str("23 times bla bla")));
    IntCastOfLeadingNumber();
    IntSlotCasts("int", Str("23 times bla bla"), c);
    var q := Transform(slot, p, EmptyWorld()).0;
    assert q.input == map[] by {
      assert map[KStr("int") := Str("23 times bla bla")] - {KStr("int")} == map[];
    }
    assert GetInput(q, "int").1 == Ok(Null);
    IntSlotCasts("int", Null, c);
  }

  /** The named `hello` entry "12" binds as the integer 12. */
  lemma HelloStep(input: map<Key, Value>, c: Config)
    requires input == map[KStr("hello") := Str("12")] && c == Apply(Default(), SetNoInputIsAllowed(true))
    ensures Step(Scalar("hello", "int", false), input, c, EmptyWorld(), 0) == Ok((Int(12), 0))
  {
    assert "12" == IntToString(12) + "" by {
      assert IntToString(12) == NatToString(12) == NatToString(1) + [DigitChar(2)];
    }
    LeadingIntOfNumeral(12, "");
    IntSlotCasts("hello", Str("12"), c);
    assert GetMapped(c, "hello") == KStr("hello") && PredefinedFor(c, KStr("hello")).None?;
    assert Supply(input, KStr("hello"), 0, c) == Ok((Str("12"), 0));
  }

  /** The missing `world` entry is null, which the `string` candidate casts to "". */
  lemma WorldStep(world: Slot, input: map<Key, Value>, c: Config)
    requires world == Slot("world", [Candidate(Builtin("string"), false)], Some(Str("hello hello")), None)
    requires input == map[KStr("hello") := Str("12")] && c == Apply(Default(), SetNoInputIsAllowed(true))
    ensures Step(world, input, c, EmptyWorld(), 0) == Ok((Str(""), 0))
  {
    assert GetMapped(c, "world") == KStr("world") && PredefinedFor(c, KStr("world")).None?;
    assert Supply(input, KStr("world"), 0, c) == Ok((Null, 0));
    assert TransformViaType(Null, world.candidates[0], world, c, EmptyWorld()) == Ok(Str(""));
    assert ResolveRaw(world, Null, c, EmptyWorld()) == Ok(Str(""));
  }

  /** hello and world bound in turn, neither moving the cursor. */
  lemma HelloWorldBound(params: seq<Slot>, input: map<Key, Value>, c: Config)
    requires params == [Scalar("hello", "int", false), Slot("world", [Candidate(Builtin("string"), false)], Some(Str("hello hello")), None)]
    requires input == map[KStr("hello") := Str("12")] && c == Apply(Default(), SetNoInputIsAllowed(true))
    ensures Bind(params, input, c, EmptyWorld(), Bound([], 0)) == Ok(Bound([(KStr("hello"), Int(12)), (KStr("world"), Str(""))], 0))
  {
    var w := EmptyWorld();
    HelloStep(input, c);
    WorldStep(params[1], input, c);
    var a1 := Put([], KStr("hello"), Int(12));
    assert a1 == [(KStr("hello"), Int(12))];
    var a2 := Put(a1, KStr("world"), Str(""));
    assert a2 == [(KStr("hello"), Int(12)), (KStr("world"), Str(""))];
    BindUnfold(params, input, c, w, Bound([], 0));
    assert params[1..] == [params[1]];
    BindUnfold([params[1]], input, c, w, Bound(a1, 0));
    assert [params[1]][1..] == [];
  }

  /**
    The constructor `(int $hello, string $world = 'hello hello', ...)` bound
    from `['hello' => '12']` with missing input allowed: hello is 12, and
    world is "" rather than its default, because the string cast of the
    missing (null) input wins over the default.
   */
  lemma ConstructorWorldIsEmptyString()
    ensures var params := [Scalar("hello", "int", false), Slot("world", [Candidate(Builtin("string"), false)], Some(Str("hello hello")), None)];
            var c := Apply(Default(), SetNoInputIsAllowed(true));
            BindParameters(params, map[KStr("hello") := Str("12")], c, EmptyWorld())
            == Ok([(KStr("hello"), Int(12)), (KStr("world"), Str(""))])
  {
    var params := [Scalar("hello", "int", false), Slot("world", [Candidate(Builtin("string"), false)], Some(Str("hello hello")), None)];
    HelloWorldBound(params, map[KStr("hello") := Str("12")], Apply(Default(), SetNoInputIsAllowed(true)));
  }

  /** `DIConstructedClass $di = null`: a class type that admits null, with a null default. */
  function Di(): Slot {
    Slot("di", [Candidate(Named("DIConstructedClass"), true)], Some(Null), Some("ConstructorTestClass"))
  }

  /**
    The missing `di` entry is null, and the class candidate hands that null
    to `hasPredefinedValue(string $typeHint)`: a TypeError, whatever classes
    the world knows.
   */
  lemma DiStep(input: map<Key, Value>, c: Config, w: World, pos: int)
    requires input == map[KStr("hello") := Str("12")] && c == Apply(Default(), SetNoInputIsAllowed(true))
    requires KInt(pos) !in input
    ensures Step(Di(), input, c, w, pos) == Err(EngineError)
  {
    assert GetMapped(c, "di") == KStr("di") && PredefinedFor(c, KStr("di")).None?;
    assert Supply(input, KStr("di"), pos, c) == Ok((Null, pos));
    assert TransformViaType(Null, Di().candidates[0], Di(), c, w) == Err(EngineError);
    assert ResolveRaw(Di(), Null, c, w) == Err(EngineError);
  }

  /**
    The constructor's three parameters bound from `['hello' => '12']`: hello
    and world bind, then `$di` raises the TypeError, so the whole binding
    fails instead of giving the vector the test expects.
   */
  lemma ConstructorFailsAtDi()
    ensures var params := [Scalar("hello", "int", false), Slot("world", [Candidate(Builtin("string"), false)], Some(Str("hello hello")), None)] + [Di()];
            var c := Apply(Default(), SetNoInputIsAllowed(true));
            BindParameters(params, map[KStr("hello") := Str("12")], c, EmptyWorld()) == Err(EngineError)
  {
    BindFailsAtDi([Scalar("hello", "int", false), Slot("world", [Candidate(Builtin("string"), false)], Some(Str("hello hello")), None)],
                  map[KStr("hello") := Str("12")], Apply(Default(), SetNoInputIsAllowed(true)));
  }

  /** `ConstructorFailsAtDi` over named parts: the bound prefix, then the failing `$di`. */
  lemma BindFailsAtDi(params: seq<Slot>, input: map<Key, Value>, c: Config)
    requires params == [Scalar("hello", "int", false), Slot("world", [Candidate(Builtin("string"), false)], Some(Str("hello hello")), None)]
    requires input == map[KStr("hello") := Str("12")] && c == Apply(Default(), SetNoInputIsAllowed(true))
    ensures BindParameters(params + [Di()], input, c, EmptyWorld()) == Err(EngineError)
  {
    var a2 := [(KStr("hello"), Int(12)), (KStr("world"), Str(""))];
    HelloWorldBound(params, input, c);
    DiStep(input, c, EmptyWorld(), 0);
    BindUnfold([Di()], input, c, EmptyWorld(), Bound(a2, 0));
    FailsAfterPrefix(params, [Di()], input, c, EmptyWorld(), Bound(a2, 0), EngineError);
  }

  /** A binding that fails in its suffix, after its prefix bound, fails with the suffix's error. */
  lemma FailsAfterPrefix(s1: seq<Slot>, s2: seq<Slot>, input: map<Key, Value>, c: Config, w: World, mid: Bound, e: Error)
    requires Bind(s1, input, c, w, Bound([], 0)) == Ok(mid)
    requires Bind(s2, input, c, w, mid) == Err(e)
    ensures BindParameters(s1 + s2, input, c, w) == Err(e)
  {
    BindSplit(s1, s2, input, c, w, Bound([], 0));
  }
}

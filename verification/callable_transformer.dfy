/**
  Binding of a callable's or constructor's ordered parameters to a read-only
  input map: each parameter takes its predefined value, else the entry under
  its mapped name, else the entry at the positional cursor, else null or
  NoInputException; the raw value is then resolved by the candidate rule.
  Any failure aborts the whole binding.
 */
module CallableTransformer {
  import opened Wrappers
  import opened PhpValues
  import opened PhpArray
  import opened Configuration
  import opened Reflection
  import opened InputProvider
  import opened Coercion
  import opened ArgumentTransformer

  /** The argument vector built so far and the positional cursor. */
  datatype Bound = Bound(argv: Entries, pos: int)

  /**
    The raw value for one parameter and the cursor after it: the named entry,
    else the entry at the cursor (advancing it), else null or NoInputException.
   */
  function Supply(input: map<Key, Value>, name: Key, pos: int, c: Config): (r: Result<(Value, int), Error>)
    ensures name in input ==> r == Ok((input[name], pos))
    ensures name !in input && KInt(pos) in input ==> r == Ok((input[KInt(pos)], pos + 1))
    ensures name !in input && KInt(pos) !in input ==>
              r == if c.noInputIsAllowed then Ok((Null, pos)) else Err(NoInputException)
  {
    match Locate(input, name, pos)
    case ByName => Ok((input[name], pos))
    case ByPosition => Ok((input[KInt(pos)], pos + 1))
    case Nowhere => if c.noInputIsAllowed then Ok((Null, pos)) else Err(NoInputException)
  }

  /**
    The loop body of `callableTransform` for one parameter: its value and the
    cursor after it.
   */
  function Step(slot: Slot, input: map<Key, Value>, c: Config, w: World, pos: int): (r: Result<(Value, int), Error>)
    ensures PredefinedFor(c, GetMapped(c, slot.name)).Some? ==> r == Ok((PredefinedFor(c, GetMapped(c, slot.name)).value, pos))
    ensures PredefinedFor(c, GetMapped(c, slot.name)).None? && Supply(input, GetMapped(c, slot.name), pos, c).Err? ==>
              r == Err(Supply(input, GetMapped(c, slot.name), pos, c).error)
    ensures PredefinedFor(c, GetMapped(c, slot.name)).None? && Supply(input, GetMapped(c, slot.name), pos, c).Ok? ==>
              var (raw, pos') := Supply(input, GetMapped(c, slot.name), pos, c).value;
              var res := ResolveRaw(slot, raw, c, w);
              r == if res.Err? then Err(res.error)
                   else if res.value == Null && !c.nullIsAllowed then Err(NullValueException)
                   else Ok((res.value, pos'))
    ensures r.Ok? ==> r.value.1 == pos || r.value.1 == pos + 1
    ensures r.Ok? && r.value.1 == pos + 1 <==>
              PredefinedFor(c, GetMapped(c, slot.name)).None? && Locate(input, GetMapped(c, slot.name), pos) == ByPosition
              && r.Ok?
    ensures r == Err(NoInputException) <==>
              PredefinedFor(c, GetMapped(c, slot.name)).None? && Locate(input, GetMapped(c, slot.name), pos) == Nowhere
              && !c.noInputIsAllowed
    ensures r == Err(NullValueException) ==> !c.nullIsAllowed
    ensures r.Ok? && PredefinedFor(c, GetMapped(c, slot.name)).None? ==> r.value.0 != Null || c.nullIsAllowed
    ensures r.Err? ==> r.error == NoInputException || r.error == NullValueException || CandidateError(r.error)
  {
    var name := GetMapped(c, slot.name);
    match PredefinedFor(c, name)
    case Some(v) => Ok((v, pos))
    case None =>
      var (raw, pos') :- Supply(input, name, pos, c);
      var value :- ResolveRaw(slot, raw, c, w);
      if value == Null && !c.nullIsAllowed then Err(NullValueException) else Ok((value, pos'))
  }

  /**
    The loop body as the source writes it: the raw value is passed to
    `transformViaArgument` where a reflection object is declared, so every
    parameter that gets past the predefined check and finds its input (or
    null) raises a TypeError, an engine Error.
   */
  function StepAsWritten(slot: Slot, input: map<Key, Value>, c: Config, w: World, pos: int): (r: Result<(Value, int), Error>)
    ensures PredefinedFor(c, GetMapped(c, slot.name)).Some? ==> r == Step(slot, input, c, w, pos)
    ensures PredefinedFor(c, GetMapped(c, slot.name)).None? && Supply(input, GetMapped(c, slot.name), pos, c).Ok? ==>
              r == Err(EngineError)
    ensures PredefinedFor(c, GetMapped(c, slot.name)).None? && Supply(input, GetMapped(c, slot.name), pos, c).Err? ==>
              r == Step(slot, input, c, w, pos)
  {
    var name := GetMapped(c, slot.name);
    match PredefinedFor(c, name)
    case Some(v) => Ok((v, pos))
    case None =>
      var supplied :- Supply(input, name, pos, c);
      Err(EngineError)
  }

  /**
    The call as written rejects a parameter the intended resolution binds:
    an `int $hello` with the entry `hello => '1'`, which resolves to 1.
   */
  lemma StepAsWrittenRejectsSuppliedInput(w: World)
    ensures var slot := Slot("hello", [Candidate(Builtin("int"), false)], None, None);
            var input := map[KStr("hello") := Str("1")];
            StepAsWritten(slot, input, Default(), w, 0) == Err(EngineError)
            && Step(slot, input, Default(), w, 0) == Ok((Int(1), 0))
  {
    var slot := Slot("hello", [Candidate(Builtin("int"), false)], None, None);
    var input := map[KStr("hello") := Str("1")];
    assert GetMapped(Default(), "hello") == KStr("hello") && PredefinedFor(Default(), KStr("hello")).None?;
    assert Supply(input, KStr("hello"), 0, Default()) == Ok((Str("1"), 0));
    assert IntToString(1) == "1" && "1" == IntToString(1) + "";
    LeadingIntOfNumeral(1, "");
    assert TransformViaType(Str("1"), slot.candidates[0], slot, Default(), w) == Ok(Int(1));
    assert ResolveRaw(slot, Str("1"), Default(), w) == Ok(Int(1));
  }

  /** The `foreach` over the parameters, each value stored under the unmapped parameter name. */
  function Bind(slots: seq<Slot>, input: map<Key, Value>, c: Config, w: World, acc: Bound): (r: Result<Bound, Error>)
    ensures r.Ok? ==> acc.pos <= r.value.pos <= acc.pos + |slots|
    ensures r.Err? ==> r.error == NoInputException || r.error == NullValueException || CandidateError(r.error)
    decreases |slots|
  {
    if |slots| == 0 then Ok(acc)
    else
      var (v, pos') :- Step(slots[0], input, c, w, acc.pos);
      Bind(slots[1..], input, c, w, Bound(Put(acc.argv, KStr(slots[0].name), v), pos'))
  }

  /** One step of the binding loop. */
  lemma BindUnfold(slots: seq<Slot>, input: map<Key, Value>, c: Config, w: World, acc: Bound)
    requires |slots| > 0
    ensures var st := Step(slots[0], input, c, w, acc.pos);
            Bind(slots, input, c, w, acc) ==
              if st.Err? then Err(st.error)
              else Bind(slots[1..], input, c, w, Bound(Put(acc.argv, KStr(slots[0].name), st.value.0), st.value.1))
  {
  }

  /** The keys the parameters are stored under, in declaration order. */
  function NameKeys(slots: seq<Slot>): (ks: seq<Key>)
    ensures |ks| == |slots|
    ensures forall i :: 0 <= i < |slots| ==> ks[i] == KStr(slots[i].name)
  {
    if |slots| == 0 then [] else [KStr(slots[0].name)] + NameKeys(slots[1..])
  }

  predicate DistinctNames(slots: seq<Slot>) {
    forall i, j :: 0 <= i < j < |slots| ==> slots[i].name != slots[j].name
  }

  /** Binding a concatenation binds the first part, then the second from where the first left off. */
  lemma {:induction false} BindSplit(s1: seq<Slot>, s2: seq<Slot>, input: map<Key, Value>, c: Config, w: World, acc: Bound)
    ensures Bind(s1 + s2, input, c, w, acc) ==
              match Bind(s1, input, c, w, acc)
              case Err(e) => Err(e)
              case Ok(mid) => Bind(s2, input, c, w, mid)
    decreases |s1|
  {
    if |s1| == 0 {
      assert s1 + s2 == s2;
    } else {
      assert (s1 + s2)[0] == s1[0];
      assert (s1 + s2)[1..] == s1[1..] + s2;
      var st := Step(s1[0], input, c, w, acc.pos);
      if st.Ok? {
        BindSplit(s1[1..], s2, input, c, w, Bound(Put(acc.argv, KStr(s1[0].name), st.value.0), st.value.1));
      }
    }
  }

  /** A key no parameter is stored under keeps its entry. */
  lemma {:induction false} BindFrame(slots: seq<Slot>, input: map<Key, Value>, c: Config, w: World, acc: Bound, k: Key)
    requires k !in NameKeys(slots)
    requires Bind(slots, input, c, w, acc).Ok?
    ensures Lookup(Bind(slots, input, c, w, acc).value.argv, k) == Lookup(acc.argv, k)
    decreases |slots|
  {
    if |slots| > 0 {
      var st := Step(slots[0], input, c, w, acc.pos);
      assert NameKeys(slots) == [KStr(slots[0].name)] + NameKeys(slots[1..]);
      LookupPut(acc.argv, KStr(slots[0].name), st.value.0, k);
      BindFrame(slots[1..], input, c, w, Bound(Put(acc.argv, KStr(slots[0].name), st.value.0), st.value.1), k);
    }
  }

  /**
    With distinct parameter names and a fresh vector, a successful binding
    has exactly one entry per parameter, keyed by its unmapped name, in
    declaration order.
   */
  lemma {:induction false} BindKeys(slots: seq<Slot>, input: map<Key, Value>, c: Config, w: World, acc: Bound)
    requires DistinctNames(slots)
    requires forall i :: 0 <= i < |slots| ==> KStr(slots[i].name) !in KeysOf(acc.argv)
    requires Bind(slots, input, c, w, acc).Ok?
    ensures KeysOf(Bind(slots, input, c, w, acc).value.argv) == KeysOf(acc.argv) + NameKeys(slots)
    decreases |slots|
  {
    if |slots| == 0 {
      assert KeysOf(acc.argv) + NameKeys(slots) == KeysOf(acc.argv);
    } else {
      BindUnfold(slots, input, c, w, acc);
      var st := Step(slots[0], input, c, w, acc.pos);
      var k := KStr(slots[0].name);
      var argv' := Put(acc.argv, k, st.value.0);
      assert k !in KeysOf(acc.argv);
      assert KeysOf(argv') == KeysOf(acc.argv) + [k];
      forall i | 0 <= i < |slots[1..]|
        ensures KStr(slots[1..][i].name) !in KeysOf(argv')
      {
        assert slots[1..][i] == slots[i + 1];
        assert slots[0].name != slots[i + 1].name;
      }
      BindKeys(slots[1..], input, c, w, Bound(argv', st.value.1));
      var ks, ns := KeysOf(acc.argv), NameKeys(slots[1..]);
      assert Bind(slots, input, c, w, acc) == Bind(slots[1..], input, c, w, Bound(argv', st.value.1));
      assert NameKeys(slots) == [k] + ns;
      AppendAssoc(ks, k, ns);
    }
  }

  lemma AppendAssoc<T>(a: seq<T>, x: T, b: seq<T>)
    ensures (a + [x]) + b == a + ([x] + b)
  {
  }

  /**
    The value stored for parameter i is the one its own step produced, at
    the cursor the parameters before it left behind.
   */
  lemma BindValueAt(slots: seq<Slot>, input: map<Key, Value>, c: Config, w: World, acc: Bound, i: nat)
    requires DistinctNames(slots) && i < |slots|
    requires Bind(slots, input, c, w, acc).Ok?
    ensures Bind(slots[..i], input, c, w, acc).Ok?
    ensures var before := Bind(slots[..i], input, c, w, acc).value;
            Step(slots[i], input, c, w, before.pos).Ok?
            && Lookup(Bind(slots, input, c, w, acc).value.argv, KStr(slots[i].name))
               == Some(Step(slots[i], input, c, w, before.pos).value.0)
  {
    var rest := slots[i..];
    assert slots == slots[..i] + rest;
    BindSplit(slots[..i], rest, input, c, w, acc);
    var before := Bind(slots[..i], input, c, w, acc).value;
    var st := Step(slots[i], input, c, w, before.pos);
    assert rest[0] == slots[i];
    var argv' := Put(before.argv, KStr(slots[i].name), st.value.0);
    LookupPut(before.argv, KStr(slots[i].name), st.value.0, KStr(slots[i].name));
    assert KStr(slots[i].name) !in NameKeys(rest[1..]) by {
      forall j | 0 <= j < |rest[1..]|
        ensures NameKeys(rest[1..])[j] != KStr(slots[i].name)
      {
        assert rest[1..][j] == slots[i + 1 + j];
      }
    }
    BindFrame(rest[1..], input, c, w, Bound(argv', st.value.1), KStr(slots[i].name));
  }

  /**
    All or nothing: a failed binding is the failure of one parameter's step,
    every parameter before it having bound.
   */
  lemma {:induction false} BindFailsAt(slots: seq<Slot>, input: map<Key, Value>, c: Config, w: World, acc: Bound)
    requires Bind(slots, input, c, w, acc).Err?
    ensures exists i :: 0 <= i < |slots| && Bind(slots[..i], input, c, w, acc).Ok?
              && Step(slots[i], input, c, w, Bind(slots[..i], input, c, w, acc).value.pos)
                 == Err(Bind(slots, input, c, w, acc).error)
    decreases |slots|
  {
    BindUnfold(slots, input, c, w, acc);
    var st := Step(slots[0], input, c, w, acc.pos);
    assert Bind(slots[..0], input, c, w, acc) == Ok(acc) by {
      assert slots[..0] == [];
    }
    if st.Ok? {
      var acc' := Bound(Put(acc.argv, KStr(slots[0].name), st.value.0), st.value.1);
      BindFailsAt(slots[1..], input, c, w, acc');
      var i :| 0 <= i < |slots[1..]| && Bind(slots[1..][..i], input, c, w, acc').Ok?
               && Step(slots[1..][i], input, c, w, Bind(slots[1..][..i], input, c, w, acc').value.pos)
                  == Err(Bind(slots[1..], input, c, w, acc').error);
      var pre := slots[..i + 1];
      assert pre[0] == slots[0] && pre[1..] == slots[1..][..i];
      BindUnfold(pre, input, c, w, acc);
      assert slots[1..][i] == slots[i + 1];
    }
  }

  /**
    The input map is read-only: a parameter whose mapped name has an entry
    gets that entry whatever the cursor, so several parameters with the same
    mapped name are fed by the same entry.
   */
  lemma NamedHitIgnoresCursor(slot: Slot, input: map<Key, Value>, c: Config, w: World, pos: int, pos': int)
    requires GetMapped(c, slot.name) in input
    ensures Step(slot, input, c, w, pos).Ok? ==> Step(slot, input, c, w, pos).value.1 == pos
    ensures Step(slot, input, c, w, pos) == (match Step(slot, input, c, w, pos')
                                            case Ok(vp) => Ok((vp.0, pos))
                                            case Err(e) => Err(e))
  {
  }

  /**
    The lookup order is the input provider's: the entry a parameter reads is
    the one `getInput` returns for the same map, name and cursor, and the
    cursor moves exactly as committing that lookup moves it.
   */
  lemma SupplyAgreesWithProvider(p: Provider, key: string)
    requires p.lastInputKey.None?
    ensures Supply(p.input, GetMapped(p.config, key), p.pos, p.config).Ok? <==> GetInput(p, key).1.Ok?
    ensures Supply(p.input, GetMapped(p.config, key), p.pos, p.config).Ok? ==>
              Supply(p.input, GetMapped(p.config, key), p.pos, p.config).value.0 == GetInput(p, key).1.value
              && Supply(p.input, GetMapped(p.config, key), p.pos, p.config).value.1 == DeleteLastInput(GetInput(p, key).0).pos
  {
  }

  /** Where `getCallableReflection` finds the parameter list. */
  datatype Ref = FunctionRef(fn: string) | MethodRef(cls: string, methodName: string) | ClosureRef(id: nat)

  /**
    What `callableTransform` can be given: an already reflected parameter
    list, a closure, a callable string, a callable `[class, method]` pair, an
    invokable object, or a class name whose constructor is bound.
   */
  datatype Target =
    | Reflected(params: seq<Slot>)
    | Closure(id: nat)
    | CallableString(s: string)
    | CallableArray(cls: string, methodName: string)
    | InvokableObject(cls: string)
    | ClassName(name: string)

  /** The declared parameter lists reflection would report; a missing class's constructor is absent. */
  datatype Signatures = Signatures(
    functions: map<string, seq<Slot>>,
    methods: map<(string, string), seq<Slot>>,
    closures: map<nat, seq<Slot>>,
    constructors: map<string, Option<seq<Slot>>>  // None: the class declares no constructor
  )

  /** The separator of a static method reference. */
  const Sep: string := "::"

  /** Whether s contains the separator. */
  predicate HasSep(s: string) {
    exists i :: 0 <= i < |s| - 1 && s[i] == ':' && s[i + 1] == ':'
  }

  /** No separator starts before index n of s: the first one, if any, starts at n or later. */
  predicate NoSepBefore(s: string, n: int) {
    forall i :: 0 <= i < n && i + 1 < |s| ==> !(s[i] == ':' && s[i + 1] == ':')
  }

  /** `implode('::', $parts)`. */
  function Implode(parts: seq<string>): string
    requires |parts| > 0
  {
    if |parts| == 1 then parts[0] else parts[0] + Sep + Implode(parts[1..])
  }

  /**
    `explode('::', $s)`: the pieces between separators, matched left to
    right; their implosion is s again and no piece holds a separator.
   */
  function Explode(s: string): (parts: seq<string>)
    ensures |parts| > 0
    ensures Implode(parts) == s
    ensures forall i :: 0 <= i < |parts| ==> !HasSep(parts[i])
    ensures |parts[0]| <= |s| && parts[0] == s[..|parts[0]|]
    ensures NoSepBefore(s, |parts[0]|)
    ensures |parts| > 1 ==> |parts[0]| + 2 <= |s| && s[|parts[0]|] == ':' && s[|parts[0]| + 1] == ':'
    ensures |parts| == 1 <==> !HasSep(s)
  {
    if |s| < 2 then
      NoSepInShort(s);
      [s]
    else if s[0] == ':' && s[1] == ':' then
      var rest := Explode(s[2..]);
      SepFirst(s, rest);
      [""] + rest
    else
      var rest := Explode(s[1..]);
      OtherFirst(s, rest);
      [[s[0]] + rest[0]] + rest[1..]
  }

  /** What `explode` promises of the pieces of s. */
  predicate Exploded(s: string, parts: seq<string>) {
    && |parts| > 0
    && Implode(parts) == s
    && (forall i :: 0 <= i < |parts| ==> !HasSep(parts[i]))
    && |parts[0]| <= |s| && parts[0] == s[..|parts[0]|]
    && NoSepBefore(s, |parts[0]|)
    && (|parts| > 1 ==> |parts[0]| + 2 <= |s| && s[|parts[0]|] == ':' && s[|parts[0]| + 1] == ':')
    && (|parts| == 1 <==> !HasSep(s))
  }

  /** A leading separator closes an empty first piece. */
  lemma SepFirst(s: string, rest: seq<string>)
    requires |s| >= 2 && s[0] == ':' && s[1] == ':'
    requires Exploded(s[2..], rest)
    ensures Exploded(s, [""] + rest)
  {
    var parts := [""] + rest;
    assert parts[1..] == rest;
    assert HasSep(s) by { assert s[0] == ':' && s[1] == ':'; }
    assert s == "" + Sep + s[2..];
    forall i | 0 <= i < |parts| ensures !HasSep(parts[i]) {
      if i > 0 { assert parts[i] == rest[i - 1]; }
    }
  }

  /** Any other first character joins the first piece of the rest. */
  lemma OtherFirst(s: string, rest: seq<string>)
    requires |s| >= 2 && !(s[0] == ':' && s[1] == ':')
    requires Exploded(s[1..], rest)
    ensures Exploded(s, [[s[0]] + rest[0]] + rest[1..])
  {
    var head := [s[0]] + rest[0];
    var parts := [head] + rest[1..];
    HeadHasNoSep(s, rest[0]);
    SepOfTail(s);
    ConsImplode(s, rest);
    assert parts[1..] == rest[1..];
    assert head == s[..|head|];
    forall i | 0 <= i < |parts| ensures !HasSep(parts[i]) {
      if i > 0 { assert parts[i] == rest[i]; }
    }
    forall i | 0 <= i < |head| && i + 1 < |s| ensures !(s[i] == ':' && s[i + 1] == ':') {
      if i > 0 { assert s[i] == s[1..][i - 1] && s[i + 1] == s[1..][i]; }
    }
    if |parts| > 1 {
      assert s[|head|] == s[1..][|rest[0]|] && s[|head| + 1] == s[1..][|rest[0]| + 1];
    }
  }

  lemma NoSepInShort(s: string)
    requires |s| < 2
    ensures !HasSep(s)
  {
  }

  /** A separator-free piece stays separator-free with a first character that does not start a separator. */
  lemma HeadHasNoSep(s: string, piece: string)
    requires |s| >= 2 && !(s[0] == ':' && s[1] == ':')
    requires !HasSep(piece) && |piece| <= |s| - 1 && piece == s[1..][..|piece|]
    ensures !HasSep([s[0]] + piece)
  {
    var head := [s[0]] + piece;
    forall i | 0 <= i < |head| - 1
      ensures !(head[i] == ':' && head[i + 1] == ':')
    {
      if i == 0 {
        assert head[1] == piece[0] == s[1];
      } else {
        assert head[i] == piece[i - 1] && head[i + 1] == piece[i];
      }
    }
  }

  lemma SepOfTail(s: string)
    requires |s| >= 2 && !(s[0] == ':' && s[1] == ':')
    ensures HasSep(s) <==> HasSep(s[1..])
  {
    if HasSep(s) {
      var i :| 0 <= i < |s| - 1 && s[i] == ':' && s[i + 1] == ':';
      assert s[1..][i - 1] == ':' && s[1..][i] == ':';
    }
    if HasSep(s[1..]) {
      var i :| 0 <= i < |s[1..]| - 1 && s[1..][i] == ':' && s[1..][i + 1] == ':';
      assert s[i + 1] == ':' && s[i + 2] == ':';
    }
  }

  lemma ConsImplode(s: string, rest: seq<string>)
    requires |s| > 0 && |rest| > 0 && Implode(rest) == s[1..]
    ensures Implode([[s[0]] + rest[0]] + rest[1..]) == s
  {
    var parts := [[s[0]] + rest[0]] + rest[1..];
    assert parts[1..] == rest[1..];
    if |rest| == 1 {
      assert [s[0]] + s[1..] == s;
    } else {
      assert [s[0]] + (rest[0] + Sep + Implode(rest[1..])) == ([s[0]] + rest[0]) + Sep + Implode(rest[1..]);
      assert [s[0]] + s[1..] == s;
    }
  }

  /**
    `getCallableReflection` for a string: with a separator, the method named
    by the second piece of the class named by the first; otherwise the
    function of that name.
   */
  function StringRef(s: string): (r: Ref)
    ensures HasSep(s) ==> r == MethodRef(Explode(s)[0], Explode(s)[1])
    ensures !HasSep(s) ==> r == FunctionRef(s)
  {
    var parts := Explode(s);
    if |parts| > 1 then MethodRef(parts[0], parts[1]) else FunctionRef(s)
  }

  /** `Class::method` names that method, whatever pieces follow. */
  lemma StaticReference(cls: string, methodName: string)
    requires forall i :: 0 <= i < |cls| ==> cls[i] != ':'
    requires !HasSep(methodName)
    ensures StringRef(cls + Sep + methodName) == MethodRef(cls, methodName)
  {
    ExplodeOfJoin(cls, methodName);
  }

  /** A string with one separator explodes into the two pieces around it. */
  lemma {:induction false} ExplodeOfJoin(a: string, b: string)
    requires forall i :: 0 <= i < |a| ==> a[i] != ':'
    requires !HasSep(b)
    ensures Explode(a + Sep + b) == [a, b]
    decreases |a|
  {
    var s := a + Sep + b;
    if |a| == 0 {
      assert s[0] == ':' && s[1] == ':';
      assert s[2..] == b;
      var parts := Explode(b);
      assert parts == [b];
    } else {
      assert s[0] == a[0] != ':';
      assert s[1..] == a[1..] + Sep + b;
      ExplodeOfJoin(a[1..], b);
      assert [s[0]] + a[1..] == a;
    }
  }

  /**
    `getCallableArguments`: the parameter list of the reflected target; a
    missing function, method or class is a ReflectionException, and a class
    without constructor an engine Error (`getParameters()` on null).
   */
  function Arguments(t: Target, sigs: Signatures): (r: Result<seq<Slot>, Error>)
    ensures t.Reflected? ==> r == Ok(t.params)
    ensures t.CallableString? && !HasSep(t.s) ==>
              r == (if t.s in sigs.functions then Ok(sigs.functions[t.s]) else Err(ReflectionException))
    ensures r.Err? ==> r.error == ReflectionException || r.error == EngineError
    ensures r == Err(EngineError) <==> t.ClassName? && t.name in sigs.constructors && sigs.constructors[t.name].None?
    ensures t.ClassName? ==>
              r == (if t.name !in sigs.constructors then Err(ReflectionException)
                    else if sigs.constructors[t.name].None? then Err(EngineError)
                    else Ok(sigs.constructors[t.name].value))
    ensures t.Closure? ==> r == RefArguments(ClosureRef(t.id), sigs)
    ensures t.CallableString? ==> r == RefArguments(StringRef(t.s), sigs)
    ensures t.CallableArray? ==> r == RefArguments(MethodRef(t.cls, t.methodName), sigs)
    ensures t.InvokableObject? ==> r == RefArguments(MethodRef(t.cls, "__invoke"), sigs)
  {
    match t
    case Reflected(params) => Ok(params)
    case ClassName(name) =>
      if name !in sigs.constructors then Err(ReflectionException)
      else if sigs.constructors[name].None? then Err(EngineError)
      else Ok(sigs.constructors[name].value)
    case Closure(id) => RefArguments(ClosureRef(id), sigs)
    case CallableString(s) => RefArguments(StringRef(s), sigs)
    case CallableArray(cls, methodName) => RefArguments(MethodRef(cls, methodName), sigs)
    case InvokableObject(cls) => RefArguments(MethodRef(cls, "__invoke"), sigs)
  }

  function RefArguments(ref: Ref, sigs: Signatures): (r: Result<seq<Slot>, Error>)
    ensures r.Err? ==> r.error == ReflectionException
    ensures ref.FunctionRef? ==>
              r == (if ref.fn in sigs.functions then Ok(sigs.functions[ref.fn]) else Err(ReflectionException))
    ensures ref.MethodRef? ==>
              r == (if (ref.cls, ref.methodName) in sigs.methods then Ok(sigs.methods[(ref.cls, ref.methodName)]) else Err(ReflectionException))
    ensures ref.ClosureRef? ==>
              r == (if ref.id in sigs.closures then Ok(sigs.closures[ref.id]) else Err(ReflectionException))
  {
    match ref
    case FunctionRef(f) => if f in sigs.functions then Ok(sigs.functions[f]) else Err(ReflectionException)
    case MethodRef(cls, m) => if (cls, m) in sigs.methods then Ok(sigs.methods[(cls, m)]) else Err(ReflectionException)
    case ClosureRef(id) => if id in sigs.closures then Ok(sigs.closures[id]) else Err(ReflectionException)
  }

  /** The argument vector of a parameter list, bound from a fresh vector and cursor 0. */
  function BindParameters(params: seq<Slot>, input: map<Key, Value>, c: Config, w: World): (r: Result<Entries, Error>)
    ensures r.Err? ==> r.error == NoInputException || r.error == NullValueException || CandidateError(r.error)
    ensures r.Ok? <==> Bind(params, input, c, w, Bound([], 0)).Ok?
    ensures r.Ok? ==> r.value == Bind(params, input, c, w, Bound([], 0)).value.argv
    ensures r.Err? ==> r.error == Bind(params, input, c, w, Bound([], 0)).error
  {
    var b :- Bind(params, input, c, w, Bound([], 0));
    Ok(b.argv)
  }

  /** `callableTransform($target, $input, $config)`: the argument vector of the target's parameters. */
  function CallableTransform(t: Target, sigs: Signatures, input: map<Key, Value>, c: Config, w: World): (r: Result<Entries, Error>)
    ensures Arguments(t, sigs).Err? ==> r == Err(Arguments(t, sigs).error)
    ensures Arguments(t, sigs).Ok? ==> r == BindParameters(Arguments(t, sigs).value, input, c, w)
    ensures r.Err? ==> r.error in {NoInputException, NullValueException, ReflectionException, EngineError, DiException, FactoryException}
  {
    var params :- Arguments(t, sigs);
    BindParameters(params, input, c, w)
  }

  /**
    A successful call returns one entry per declared parameter (names are
    distinct in a PHP signature), keyed by the unmapped name, in order.
   */
  lemma CallableTransformShape(t: Target, sigs: Signatures, input: map<Key, Value>, c: Config, w: World)
    requires CallableTransform(t, sigs, input, c, w).Ok?
    requires DistinctNames(Arguments(t, sigs).value)
    ensures KeysOf(CallableTransform(t, sigs, input, c, w).value) == NameKeys(Arguments(t, sigs).value)
  {
    var params := Arguments(t, sigs).value;
    BindKeys(params, input, c, w, Bound([], 0));
    assert CallableTransform(t, sigs, input, c, w).value == Bind(params, input, c, w, Bound([], 0)).value.argv;
    assert KeysOf([]) + NameKeys(params) == NameKeys(params);
  }
}

/**
  Resolution of one slot: fetch the raw value from the input provider, try
  the type candidates in declared order, fall back to the default, enforce
  the null policy and commit the consumption.
 */
module ArgumentTransformer {
  import opened Wrappers
  import opened PhpValues
  import opened Configuration
  import opened Reflection
  import opened Coercion
  import opened InputProvider

  /** A service that implements the interface and builds a falsy value lets the next one try. */
  predicate Passes(s: FactoryService, cls: string, v: Value, w: World) {
    s.implementsInterface && !ToBool(s.build(cls, v), w.floats)
  }

  /**
    What the first service that does not pass decides: DiException when it
    does not implement the interface, else its truthy build when that is an
    instance of the class, else FactoryException.
   */
  function Verdict(s: FactoryService, cls: string, v: Value, w: World): Result<Value, Error> {
    if !s.implementsInterface then Err(DiException)
    else if InstanceOf(w, s.build(cls, v), cls) then Ok(s.build(cls, v))
    else Err(FactoryException)
  }

  /**
    The registered factory services in registration order. A service that
    does not implement the factory-service interface is a DiException; the
    first truthy build result must be an instance of the class, else
    FactoryException; with no truthy result the raw value stands.
   */
  function ServiceChain(services: seq<FactoryService>, cls: string, v: Value, w: World): (r: Result<Value, Error>)
    ensures forall i :: 0 <= i < |services| && !Passes(services[i], cls, v, w)
                        && (forall k :: 0 <= k < i ==> Passes(services[k], cls, v, w))
                        ==> r == Verdict(services[i], cls, v, w)
    ensures (forall i :: 0 <= i < |services| ==> Passes(services[i], cls, v, w)) ==> r == Ok(v)
    ensures r.Ok? ==> r.value == v || (ToBool(r.value, w.floats) && InstanceOf(w, r.value, cls))
    ensures r.Err? ==> r.error == DiException || r.error == FactoryException
    ensures r == Err(DiException) ==> exists i :: 0 <= i < |services| && !services[i].implementsInterface
    ensures r == Err(FactoryException) ==>
              exists i :: 0 <= i < |services| && services[i].implementsInterface
                          && ToBool(services[i].build(cls, v), w.floats) && !InstanceOf(w, services[i].build(cls, v), cls)
  {
    if |services| == 0 then Ok(v)
    else
      var s := services[0];
      if !s.implementsInterface then Err(DiException)
      else
        var built := s.build(cls, v);
        if ToBool(built, w.floats) then
          if InstanceOf(w, built, cls) then Ok(built) else Err(FactoryException)
        else
          var r := ServiceChain(services[1..], cls, v, w);
          ChainAfterPassing(services, cls, v, w, r);
          r
  }

  /**
    What the chain's contract says about the rest of the services carries
    over to all of them once the first one passes.
   */
  lemma ChainAfterPassing(services: seq<FactoryService>, cls: string, v: Value, w: World, r: Result<Value, Error>)
    requires |services| > 0 && Passes(services[0], cls, v, w)
    requires var rest := services[1..];
             (forall i :: 0 <= i < |rest| && !Passes(rest[i], cls, v, w)
                          && (forall k :: 0 <= k < i ==> Passes(rest[k], cls, v, w))
                          ==> r == Verdict(rest[i], cls, v, w))
             && ((forall i :: 0 <= i < |rest| ==> Passes(rest[i], cls, v, w)) ==> r == Ok(v))
             && (r == Err(DiException) ==> exists i :: 0 <= i < |rest| && !rest[i].implementsInterface)
             && (r == Err(FactoryException) ==>
                   exists i :: 0 <= i < |rest| && rest[i].implementsInterface
                               && ToBool(rest[i].build(cls, v), w.floats) && !InstanceOf(w, rest[i].build(cls, v), cls))
    ensures forall i :: 0 <= i < |services| && !Passes(services[i], cls, v, w)
                        && (forall k :: 0 <= k < i ==> Passes(services[k], cls, v, w))
                        ==> r == Verdict(services[i], cls, v, w)
    ensures (forall i :: 0 <= i < |services| ==> Passes(services[i], cls, v, w)) ==> r == Ok(v)
    ensures r == Err(DiException) ==> exists i :: 0 <= i < |services| && !services[i].implementsInterface
    ensures r == Err(FactoryException) ==>
              exists i :: 0 <= i < |services| && services[i].implementsInterface
                          && ToBool(services[i].build(cls, v), w.floats) && !InstanceOf(w, services[i].build(cls, v), cls)
  {
    var rest := services[1..];
    forall i | 0 <= i < |services| && !Passes(services[i], cls, v, w)
               && (forall k :: 0 <= k < i ==> Passes(services[k], cls, v, w))
      ensures r == Verdict(services[i], cls, v, w)
    {
      assert i > 0;
      assert rest[i - 1] == services[i];
      forall k | 0 <= k < i - 1 ensures Passes(rest[k], cls, v, w) {
        assert rest[k] == services[k + 1];
      }
    }
    if forall i :: 0 <= i < |services| ==> Passes(services[i], cls, v, w) {
      forall k | 0 <= k < |rest| ensures Passes(rest[k], cls, v, w) {
        assert rest[k] == services[k + 1];
      }
    }
    if r == Err(DiException) {
      var i :| 0 <= i < |rest| && !rest[i].implementsInterface;
      assert services[i + 1] == rest[i];
    }
    if r == Err(FactoryException) {
      var i :| 0 <= i < |rest| && rest[i].implementsInterface
               && ToBool(rest[i].build(cls, v), w.floats) && !InstanceOf(w, rest[i].build(cls, v), cls);
      assert services[i + 1] == rest[i];
    }
  }

  /**
    `transformViaClassName`: a self-constructing class builds the value
    itself and its result is returned whatever it is; otherwise the factory
    services are asked.
   */
  function TransformViaClassName(v: Value, cls: string, w: World): (r: Result<Value, Error>)
    ensures cls in w.classes && w.classes[cls].selfConstructing ==> r == Ok(w.selfBuild(cls, v))
    ensures !(cls in w.classes && w.classes[cls].selfConstructing) ==> r == ServiceChain(w.services, cls, v, w)
  {
    if cls in w.classes && w.classes[cls].selfConstructing then Ok(w.selfBuild(cls, v))
    else ServiceChain(w.services, cls, v, w)
  }

  /**
    `transformViaNamedType` for a class-typed candidate. The raw value itself
    is handed to `hasPredefinedValue(string $typeHint)`, so any value other
    than a string (null included) is a TypeError. A string with a predefined
    value gets that value; otherwise a known class (after `self`/`parent`
    mapping) applies the class rule, and an unknown one leaves the value.
   */
  function TransformViaNamedType(v: Value, name: string, slot: Slot, c: Config, w: World): (r: Result<Value, Error>)
    ensures !v.Str? ==> r == Err(EngineError)
    ensures v.Str? && Predefined(c, v.s).Some? ==> r == Ok(Predefined(c, v.s).value)
    ensures v.Str? && Predefined(c, v.s).None? && !ClassExists(w, MapSpecialName(name, slot, w)) ==> r == Ok(v)
    ensures v.Str? && Predefined(c, v.s).None? && ClassExists(w, MapSpecialName(name, slot, w)) ==>
              r == TransformViaClassName(v, MapSpecialName(name, slot, w), w)
  {
    var cls := MapSpecialName(name, slot, w);
    if !v.Str? then Err(EngineError)
    else match Predefined(c, v.s)
      case Some(p) => Ok(p)
      case None => if ClassExists(w, cls) then TransformViaClassName(v, cls, w) else Ok(v)
  }

  /** A failure a candidate rule can raise: never one of the provider's or the null policy's. */
  predicate CandidateError(e: Error) {
    e == EngineError || e == DiException || e == FactoryException
  }

  /**
    `transformViaType`: a slot without a declared type hands null to the
    `ReflectionType` parameter, a TypeError whatever the value; otherwise the
    `'null'` literal rule, then the candidate's own rule (a builtin cast, the
    named-type rule, or the value unchanged for an intersection type).
   */
  function TransformViaType(raw: Value, cand: Candidate, slot: Slot, c: Config, w: World): (r: Result<Value, Error>)
    ensures cand.kind.Untyped? ==> r == Err(EngineError)
    ensures cand.kind.Builtin? ==> r == CastBuiltin(cand.kind.name, NullLiteral(raw, cand), w.floats)
    ensures cand.kind.Named? ==> r == TransformViaNamedType(NullLiteral(raw, cand), cand.kind.name, slot, c, w)
    ensures cand.kind.Intersection? ==> r == Ok(NullLiteral(raw, cand))
    ensures r.Err? ==> CandidateError(r.error)
  {
    match cand.kind
    case Untyped => Err(EngineError)
    case Builtin(name) => CastBuiltin(name, NullLiteral(raw, cand), w.floats)
    case Named(name) => TransformViaNamedType(NullLiteral(raw, cand), name, slot, c, w)
    case Intersection => Ok(NullLiteral(raw, cand))
  }

  /** Every candidate's result, in declared order. */
  function CandidateResults(cands: seq<Candidate>, raw: Value, slot: Slot, c: Config, w: World): (rs: seq<Result<Value, Error>>)
    ensures |rs| == |cands|
    ensures forall i :: 0 <= i < |cands| ==> rs[i] == TransformViaType(raw, cands[i], slot, c, w)
  {
    if |cands| == 0 then [] else [TransformViaType(raw, cands[0], slot, c, w)] + CandidateResults(cands[1..], raw, slot, c, w)
  }

  /**
    The candidate loop of `transformViaArgument` as written: return at the
    first non-null result not identical to the raw value, propagate a thrown
    error, and after the loop fall back to the default for a null input.
    It agrees with picking the first deciding result of all candidates.
   */
  function ResolveCandidates(cands: seq<Candidate>, raw: Value, slot: Slot, c: Config, w: World): (r: Result<Value, Error>)
    ensures r == Settle(FirstDecisive(CandidateResults(cands, raw, slot, c, w), raw), slot, raw)
    ensures r.Err? ==> CandidateError(r.error)
  {
    if |cands| == 0 then Ok(Fallback(slot, raw))
    else
      var nv :- TransformViaType(raw, cands[0], slot, c, w);
      if Wins(raw, nv) then Ok(nv) else ResolveCandidates(cands[1..], raw, slot, c, w)
  }

  /**
    The value a slot resolves to from a raw input value: the first candidate,
    in declared order, that throws or yields a non-null value not identical
    to the raw value decides; if none does, the raw value, or for a null raw
    value the slot's default or null.
   */
  function ResolveRaw(slot: Slot, raw: Value, c: Config, w: World): (r: Result<Value, Error>)
    ensures forall j :: 0 <= j < |slot.candidates| && Decides(TransformViaType(raw, slot.candidates[j], slot, c, w), raw)
                        && (forall k :: 0 <= k < j ==> !Decides(TransformViaType(raw, slot.candidates[k], slot, c, w), raw))
                        ==> r == TransformViaType(raw, slot.candidates[j], slot, c, w)
    ensures (forall k :: 0 <= k < |slot.candidates| ==> !Decides(TransformViaType(raw, slot.candidates[k], slot, c, w), raw))
            ==> r == Ok(Fallback(slot, raw))
    ensures r.Err? ==> CandidateError(r.error)
  {
    var rs := CandidateResults(slot.candidates, raw, slot, c, w);
    var d := FirstDecisive(rs, raw);
    forall j | 0 <= j < |slot.candidates| && Decides(rs[j], raw) && (forall k :: 0 <= k < j ==> !Decides(rs[k], raw))
      ensures d == Some(rs[j])
    {
      FirstDecisiveAt(rs, raw, j);
    }
    ResolveCandidates(slot.candidates, raw, slot, c, w)
  }

  /**
    A parameter or property without a declared type never resolves: its one
    candidate raises a TypeError whatever the raw value, `'null'` included.
   */
  lemma UntypedSlotRejectsEveryValue(slot: Slot, raw: Value, c: Config, w: World)
    requires |slot.candidates| > 0 && slot.candidates[0].kind.Untyped?
    ensures ResolveRaw(slot, raw, c, w) == Err(EngineError)
  {
    assert Decides(TransformViaType(raw, slot.candidates[0], slot, c, w), raw);
  }

  /** `transformViaArgument`: look the slot up in the provider, then resolve the raw value. */
  function TransformViaArgument(slot: Slot, p: Provider, w: World): (r: (Provider, Result<Value, Error>))
    ensures r.0 == GetInput(p, slot.name).0
    ensures GetInput(p, slot.name).1.Err? ==> r.1 == GetInput(p, slot.name).1
    ensures GetInput(p, slot.name).1.Ok? ==> r.1 == ResolveRaw(slot, GetInput(p, slot.name).1.value, p.config, w)
  {
    var (q, raw) := GetInput(p, slot.name);
    if raw.Err? then (q, raw) else (q, ResolveRaw(slot, raw.value, p.config, w))
  }

  /**
    `transform`: a null value under a no-null policy is NullValueException
    and nothing is committed; otherwise the pending consumption is committed
    once and the value returned.
   */
  function Transform(slot: Slot, p: Provider, w: World): (r: (Provider, Result<Value, Error>))
    ensures GetInput(p, slot.name).1.Err? ==> r.1 == GetInput(p, slot.name).1
    ensures GetInput(p, slot.name).1.Ok? ==>
              var res := ResolveRaw(slot, GetInput(p, slot.name).1.value, p.config, w);
              r.1 == if res == Ok(Null) && !p.config.nullIsAllowed then Err(NullValueException) else res
    ensures r.1 == Err(NullValueException) <==>
              GetInput(p, slot.name).1.Ok? && ResolveRaw(slot, GetInput(p, slot.name).1.value, p.config, w) == Ok(Null)
              && !p.config.nullIsAllowed
    ensures r.1.Ok? ==> r.1.value != Null || p.config.nullIsAllowed
    ensures r.1 == Err(NoInputException) ==> r.0 == p && !p.config.noInputIsAllowed
    ensures r.1.Err? ==> SameButPending(p, r.0)
    ensures r.1.Ok? ==> r.0 == DeleteLastInput(GetInput(p, slot.name).0)
  {
    var a := TransformViaArgument(slot, p, w);
    if a.1.Err? then a
    else if a.1.value == Null && !p.config.nullIsAllowed then (a.0, Err(NullValueException))
    else (DeleteLastInput(a.0), a.1)
  }

  /**
    `transform` with `getMapped` as declared: a slot whose name is mapped to
    a position fails with that lookup's TypeError before anything is read,
    leaving the provider as it was; every other slot is transformed as
    intended.
   */
  function TransformAsWritten(slot: Slot, p: Provider, w: World): (r: (Provider, Result<Value, Error>))
    ensures slot.name in p.config.mapping && p.config.mapping[slot.name].KInt? ==> r == (p, Err(EngineError))
    ensures GetMapped(p.config, slot.name).KStr? ==> r == Transform(slot, p, w)
  {
    match GetMappedAsWritten(p.config, slot.name)
    case Err(e) => (p, Err(e))
    case Ok(_) => Transform(slot, p, w)
  }

  /**
    What a successful transform consumes: a positional hit advances the
    cursor by one and removes nothing; a named hit removes the entry under
    the slot's own (unmapped) name, when there is one, into the backup.
   */
  lemma TransformCommitsOnce(slot: Slot, p: Provider, w: World)
    requires Transform(slot, p, w).1.Ok?
    ensures var q := Transform(slot, p, w).0;
      Locate(p.input, GetMapped(p.config, slot.name), p.pos) == ByPosition ==>
        q.input == p.input && q.backup == p.backup && q.pos == p.pos + 1 && q.lastInputKey.None?
    ensures var q := Transform(slot, p, w).0;
      Locate(p.input, GetMapped(p.config, slot.name), p.pos) == ByName && KStr(slot.name) in p.input ==>
        q.input == p.input - {KStr(slot.name)} && q.pos == p.pos && q.lastInputKey.None?
        && q.backup == p.backup[KStr(slot.name) := p.input[KStr(slot.name)]]
    ensures var q := Transform(slot, p, w).0;
      Locate(p.input, GetMapped(p.config, slot.name), p.pos) == ByName && KStr(slot.name) !in p.input ==>
        q.input == p.input && q.pos == p.pos
  {
  }

  /** A transform is a lookup, followed by a commit when it succeeds. */
  lemma TransformIsLookupAndCommit(slot: Slot, p: Provider, w: World)
    ensures Transform(slot, p, w).0 == PerformAll(p, [Get(slot.name)])
         || Transform(slot, p, w).0 == PerformAll(p, [Get(slot.name), Delete])
  {
    var q := GetInput(p, slot.name).0;
    assert PerformAll(p, [Get(slot.name)]) == q by {
      assert PerformAll(q, []) == q;
    }
    assert PerformAll(p, [Get(slot.name), Delete]) == DeleteLastInput(q) by {
      assert [Get(slot.name), Delete][1..] == [Delete];
      assert PerformAll(q, [Delete]) == DeleteLastInput(q) by {
        assert [Delete][1..] == [];
      }
    }
  }

  /** One transform per slot on a shared provider, failures included. */
  function TransformAll(p: Provider, slots: seq<Slot>, w: World): Provider
    decreases |slots|
  {
    if |slots| == 0 then p else TransformAll(Transform(slots[0], p, w).0, slots[1..], w)
  }

  lemma {:induction false} TransformAllKeepsRestorable(p: Provider, slots: seq<Slot>, w: World, base: map<Key, Value>, basePos: int)
    requires Restorable(p, base, basePos)
    ensures Restorable(TransformAll(p, slots, w), base, basePos)
    decreases |slots|
  {
    if |slots| > 0 {
      var q := Transform(slots[0], p, w).0;
      TransformIsLookupAndCommit(slots[0], p, w);
      PerformAllKeepsRestorable(p, [Get(slots[0].name)], base, basePos);
      PerformAllKeepsRestorable(p, [Get(slots[0].name), Delete], base, basePos);
      TransformAllKeepsRestorable(q, slots[1..], w, base, basePos);
    }
  }

  /**
    Per-member rollback: after `initBackup`, any run of slot transforms,
    successful or not, is undone by `restoreBackup`.
   */
  lemma RollbackAfterTransforms(p: Provider, slots: seq<Slot>, w: World)
    ensures RestoreBackup(TransformAll(InitBackup(p), slots, w)).input == p.input
    ensures RestoreBackup(TransformAll(InitBackup(p), slots, w)).pos == p.pos
    ensures RestoreBackup(TransformAll(InitBackup(p), slots, w)).backup == map[]
  {
    var q := InitBackup(p);
    assert q.input + q.backup == p.input;
    TransformAllKeepsRestorable(q, slots, w, p.input, p.pos);
  }

  /**
    A pending marker left behind by a failed transform is committed by the
    next transform that finds no input: the entry under the stale key is
    consumed although nothing read it.
   */
  lemma StalePendingIsCommitted(slot: Slot, p: Provider, w: World, k: string)
    requires p.lastInputKey == Some(KStr(k)) && KStr(k) in p.input
    requires Locate(p.input, GetMapped(p.config, slot.name), p.pos) == Nowhere
    requires Transform(slot, p, w).1.Ok?
    ensures Transform(slot, p, w).0.input == p.input - {KStr(k)}
  {
  }

  /**
    The first builtin scalar candidate wins on a null input (its cast of null
    is not null), so the slot's default is never reached.
   */
  lemma ScalarCandidateBeatsDefault(slot: Slot, c: Config, w: World, j: nat)
    requires j < |slot.candidates| && slot.candidates[j].kind.Builtin?
    requires IsScalarName(slot.candidates[j].kind.name)
    requires forall k :: 0 <= k < j ==> slot.candidates[k].kind.Builtin? && !IsScalarName(slot.candidates[k].kind.name)
    ensures ResolveRaw(slot, Null, c, w) == CastBuiltin(slot.candidates[j].kind.name, Null, w.floats)
    ensures ResolveRaw(slot, Null, c, w).Ok? && ResolveRaw(slot, Null, c, w).value != Null
  {
    forall k | 0 <= k < j
      ensures !Decides(TransformViaType(Null, slot.candidates[k], slot, c, w), Null)
    {
      assert TransformViaType(Null, slot.candidates[k], slot, c, w) == Ok(Null);
    }
    assert Decides(TransformViaType(Null, slot.candidates[j], slot, c, w), Null);
  }
}

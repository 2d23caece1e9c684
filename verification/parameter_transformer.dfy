/**
  The older standalone resolver: argument names renamed through an optional
  mapping keyed by name or by cursor position, values looked up by name with
  a positional fallback and null for missing input, each value resolved by a
  break-and-isset candidate loop, and the result keyed by the renamed name.
 */
module ParameterTransformer {
  import opened Wrappers
  import opened PhpValues
  import opened PhpArray
  import opened Configuration
  import opened Reflection
  import opened Coercion
  import opened InputProvider
  import opened CallableTransformer
  import ArgumentTransformer

  /**
    The renamed argument: without a mapping the name itself; with one, the
    entry for the name, else the entry for the current cursor, else the name.
   */
  function LegacyName(name: string, pos: int, mapping: Option<map<Key, Key>>): (k: Key)
    ensures mapping.None? ==> k == KStr(name)
    ensures mapping.Some? && KStr(name) in mapping.value ==> k == mapping.value[KStr(name)]
    ensures mapping.Some? && KStr(name) !in mapping.value && KInt(pos) in mapping.value ==> k == mapping.value[KInt(pos)]
    ensures mapping.Some? && KStr(name) !in mapping.value && KInt(pos) !in mapping.value ==> k == KStr(name)
  {
    match mapping
    case None => KStr(name)
    case Some(m) =>
      if KStr(name) in m then m[KStr(name)] else if KInt(pos) in m then m[KInt(pos)] else KStr(name)
  }

  /** The mapping as a configuration's rename table: its string-keyed entries. */
  function AsRenameTable(m: map<Key, Key>): (t: map<string, Key>)
    ensures forall s :: s in t <==> KStr(s) in m
  {
    map k | k in m && k.KStr? :: k.s := m[k]
  }

  /**
    Without positional entries in the mapping, renaming is the
    configuration's single-step `getMapped` over the same table.
   */
  lemma LegacyNameIsGetMapped(name: string, pos: int, m: map<Key, Key>, c: Config)
    requires KInt(pos) !in m && c.mapping == AsRenameTable(m)
    ensures LegacyName(name, pos, Some(m)) == GetMapped(c, name)
  {
  }

  /** The raw value and the cursor after it: by name, else at the cursor (advancing it), else null. */
  function LegacyLookup(input: map<Key, Value>, name: Key, pos: int): (r: (Value, int))
    ensures r.1 == pos || r.1 == pos + 1
  {
    match Locate(input, name, pos)
    case ByName => (input[name], pos)
    case ByPosition => (input[KInt(pos)], pos + 1)
    case Nowhere => (Null, pos)
  }

  /**
    The lookup is the callable transformer's under a policy that allows
    missing input: same order, same cursor movement, and never a failure.
   */
  lemma LegacyLookupIsLenientSupply(input: map<Key, Value>, name: Key, pos: int, c: Config)
    requires c.noInputIsAllowed
    ensures Supply(input, name, pos, c) == Ok(LegacyLookup(input, name, pos))
  {
  }

  /**
    `transformViaType` of the older resolver: like the newer one, an untyped
    argument hands null to the `ReflectionType` parameter, a TypeError; else
    the `'null'` literal rule, then a builtin cast, or for a known class the
    class-name hook; there are no predefined values.
   */
  function LegacyTransformViaType(raw: Value, cand: Candidate, slot: Slot, w: World): (r: Result<Value, Error>)
    ensures cand.kind.Untyped? ==> r == Err(EngineError)
    ensures cand.kind.Builtin? ==> r == CastBuiltin(cand.kind.name, NullLiteral(raw, cand), w.floats)
    ensures cand.kind.Named? && ClassExists(w, MapSpecialName(cand.kind.name, slot, w)) ==>
              r == Ok(w.legacyClassTransform(MapSpecialName(cand.kind.name, slot, w), NullLiteral(raw, cand)))
    ensures cand.kind.Named? && !ClassExists(w, MapSpecialName(cand.kind.name, slot, w)) ==> r == Ok(NullLiteral(raw, cand))
    ensures cand.kind.Intersection? ==> r == Ok(NullLiteral(raw, cand))
    ensures r.Err? ==> r.error == EngineError
  {
    var v := NullLiteral(raw, cand);
    match cand.kind
    case Untyped => Err(EngineError)
    case Builtin(name) => CastBuiltin(name, v, w.floats)
    case Named(name) =>
      var cls := MapSpecialName(name, slot, w);
      if ClassExists(w, cls) then Ok(w.legacyClassTransform(cls, v)) else Ok(v)
    case Intersection => Ok(v)
  }

  /**
    Outside class-typed candidates the two resolvers' per-candidate rules are
    the same; they differ only in the predefined values and the class hook.
   */
  lemma LegacyCandidateIsNewerOffClasses(raw: Value, cand: Candidate, slot: Slot, c: Config, w: World)
    requires !cand.kind.Named?
    ensures LegacyTransformViaType(raw, cand, slot, w) == ArgumentTransformer.TransformViaType(raw, cand, slot, c, w)
  {
  }

  function LegacyResults(cands: seq<Candidate>, raw: Value, slot: Slot, w: World): (rs: seq<Result<Value, Error>>)
    ensures |rs| == |cands|
    ensures forall i :: 0 <= i < |cands| ==> rs[i] == LegacyTransformViaType(raw, cands[i], slot, w)
  {
    if |cands| == 0 then [] else [LegacyTransformViaType(raw, cands[0], slot, w)] + LegacyResults(cands[1..], raw, slot, w)
  }

  /**
    The candidate loop as written: `break` at the first winning value, and
    `$newValue` left holding the last value computed (none before the first
    iteration).
   */
  function LegacyLoop(cands: seq<Candidate>, raw: Value, slot: Slot, w: World, last: Option<Value>): (r: Result<Option<Value>, Error>)
    ensures r.Err? ==> r.error == EngineError
    decreases |cands|
  {
    if |cands| == 0 then Ok(last)
    else
      var nv :- LegacyTransformViaType(raw, cands[0], slot, w);
      if Wins(raw, nv) then Ok(Some(nv)) else LegacyLoop(cands[1..], raw, slot, w, Some(nv))
  }

  /**
    `transformViaArgument` of the older resolver: the loop, then
    `isset($newValue)` replaces the raw value, then a null becomes the
    default or null.
   */
  function LegacyTransformViaArgument(raw: Value, slot: Slot, w: World): (r: Result<Value, Error>)
    ensures r.Err? ==> r.error == EngineError
  {
    var nv :- LegacyLoop(slot.candidates, raw, slot, w, None);
    var value := if nv.Some? && nv.value != Null then nv.value else raw;
    Ok(if value == Null then slot.defaultValue.GetOr(Null) else value)
  }

  /**
    The loop ends in the first deciding result; when nothing decides it
    leaves a value that does not win (or none).
   */
  lemma {:induction false} LegacyLoopDecides(cands: seq<Candidate>, raw: Value, slot: Slot, w: World, last: Option<Value>)
    requires last.None? || !Wins(raw, last.value)
    ensures var d := FirstDecisive(LegacyResults(cands, raw, slot, w), raw);
            var r := LegacyLoop(cands, raw, slot, w, last);
            (d.Some? && d.value.Err? ==> r == Err(d.value.error))
            && (d.Some? && d.value.Ok? ==> r == Ok(Some(d.value.value)))
            && (d.None? ==> r.Ok? && (r.value.None? || !Wins(raw, r.value.value)))
    decreases |cands|
  {
    if |cands| > 0 {
      var rs := LegacyResults(cands, raw, slot, w);
      assert rs[1..] == LegacyResults(cands[1..], raw, slot, w);
      var first := LegacyTransformViaType(raw, cands[0], slot, w);
      if first.Ok? && !Wins(raw, first.value) {
        LegacyLoopDecides(cands[1..], raw, slot, w, Some(first.value));
      }
    }
  }

  /**
    The older resolver picks what the newer one picks from the same
    candidate results: the first result that throws or wins, else the raw
    value, with a null raw value replaced by the default or null.
   */
  lemma LegacyAgreesWithFirstDecisive(raw: Value, slot: Slot, w: World)
    ensures LegacyTransformViaArgument(raw, slot, w)
            == Settle(FirstDecisive(LegacyResults(slot.candidates, raw, slot, w), raw), slot, raw)
  {
    LegacyLoopDecides(slot.candidates, raw, slot, w, None);
  }

  /** What one argument reads: its renamed key, its raw value, and the cursor it was read at. */
  datatype Read = Read(key: Key, raw: Value, at: int)

  /**
    The reads of the argument loop, in order. Renaming and lookup never look
    at a resolved value, so the keys, raw values and cursors follow from the
    input, the mapping and the starting cursor alone.
   */
  function LegacyReads(slots: seq<Slot>, input: map<Key, Value>, mapping: Option<map<Key, Key>>, pos: int): (rs: seq<Read>)
    ensures |rs| == |slots|
    ensures |slots| > 0 ==> rs[0].at == pos
    ensures forall i :: 0 <= i < |slots| ==>
              rs[i].key == LegacyName(slots[i].name, rs[i].at, mapping)
              && rs[i].raw == LegacyLookup(input, rs[i].key, rs[i].at).0
    ensures forall i :: 0 <= i < |slots| - 1 ==> rs[i + 1].at == LegacyLookup(input, rs[i].key, rs[i].at).1
    decreases |slots|
  {
    if |slots| == 0 then []
    else
      var name := LegacyName(slots[0].name, pos, mapping);
      var (raw, pos') := LegacyLookup(input, name, pos);
      [Read(name, raw, pos)] + LegacyReads(slots[1..], input, mapping, pos')
  }

  /**
    `transform`: every argument renamed, looked up and resolved; the value is
    stored under the renamed key, so a later argument with the same key
    overwrites an earlier one.
   */
  function LegacyBind(slots: seq<Slot>, input: map<Key, Value>, mapping: Option<map<Key, Key>>, w: World,
                      argv: Entries, pos: int): (r: Result<Entries, Error>)
    ensures r.Err? ==> r.error == EngineError
    ensures r.Ok? && UniqueKeys(argv) ==> UniqueKeys(r.value)
    ensures r.Ok? ==> |r.value| <= |argv| + |slots|
    decreases |slots|
  {
    if |slots| == 0 then Ok(argv)
    else
      var name := LegacyName(slots[0].name, pos, mapping);
      var (raw, pos') := LegacyLookup(input, name, pos);
      var v :- LegacyTransformViaArgument(raw, slots[0], w);
      PutKeepsUnique(argv, name, v);
      LegacyBind(slots[1..], input, mapping, w, Put(argv, name, v), pos')
  }

  /** One successful iteration: the first argument's read, its resolution, then the rest of the loop. */
  lemma LegacyBindUnfold(slots: seq<Slot>, input: map<Key, Value>, mapping: Option<map<Key, Key>>, w: World,
                         argv: Entries, pos: int)
    requires |slots| > 0 && LegacyBind(slots, input, mapping, w, argv, pos).Ok?
    ensures var rs := LegacyReads(slots, input, mapping, pos);
            var pos' := LegacyLookup(input, rs[0].key, pos).1;
            LegacyTransformViaArgument(rs[0].raw, slots[0], w).Ok?
            && rs[1..] == LegacyReads(slots[1..], input, mapping, pos')
            && LegacyBind(slots, input, mapping, w, argv, pos)
               == LegacyBind(slots[1..], input, mapping, w, Put(argv, rs[0].key, LegacyTransformViaArgument(rs[0].raw, slots[0], w).value), pos')
  {
  }

  /** The loop succeeds exactly when every argument's own read resolves. */
  lemma {:induction false} LegacyBindOk(slots: seq<Slot>, input: map<Key, Value>, mapping: Option<map<Key, Key>>, w: World,
                                        argv: Entries, pos: int)
    ensures var rs := LegacyReads(slots, input, mapping, pos);
            LegacyBind(slots, input, mapping, w, argv, pos).Ok? <==>
              forall i :: 0 <= i < |slots| ==> LegacyTransformViaArgument(rs[i].raw, slots[i], w).Ok?
    decreases |slots|
  {
    if |slots| > 0 {
      var rs := LegacyReads(slots, input, mapping, pos);
      var first := LegacyTransformViaArgument(rs[0].raw, slots[0], w);
      var pos' := LegacyLookup(input, rs[0].key, pos).1;
      assert rs[1..] == LegacyReads(slots[1..], input, mapping, pos');
      if first.Ok? {
        LegacyBindOk(slots[1..], input, mapping, w, Put(argv, rs[0].key, first.value), pos');
        if forall i :: 0 <= i < |slots[1..]| ==> LegacyTransformViaArgument(rs[1..][i].raw, slots[1..][i], w).Ok? {
          forall i | 0 <= i < |slots| ensures LegacyTransformViaArgument(rs[i].raw, slots[i], w).Ok? {
            if i > 0 { assert rs[i] == rs[1..][i - 1] && slots[i] == slots[1..][i - 1]; }
          }
        } else {
          var i :| 0 <= i < |slots[1..]| && !LegacyTransformViaArgument(rs[1..][i].raw, slots[1..][i], w).Ok?;
          assert rs[i + 1] == rs[1..][i] && slots[i + 1] == slots[1..][i];
        }
      }
    }
  }

  /** A key no argument is renamed to keeps its entry. */
  lemma {:induction false} LegacyBindFrame(slots: seq<Slot>, input: map<Key, Value>, mapping: Option<map<Key, Key>>, w: World,
                                           argv: Entries, pos: int, k: Key)
    requires LegacyBind(slots, input, mapping, w, argv, pos).Ok?
    requires forall i :: 0 <= i < |slots| ==> LegacyReads(slots, input, mapping, pos)[i].key != k
    ensures Lookup(LegacyBind(slots, input, mapping, w, argv, pos).value, k) == Lookup(argv, k)
    decreases |slots|
  {
    if |slots| > 0 {
      var rs := LegacyReads(slots, input, mapping, pos);
      var v := LegacyTransformViaArgument(rs[0].raw, slots[0], w).value;
      var pos' := LegacyLookup(input, rs[0].key, pos).1;
      assert rs[1..] == LegacyReads(slots[1..], input, mapping, pos');
      forall i | 0 <= i < |slots[1..]| ensures rs[1..][i].key != k {
        assert rs[1..][i] == rs[i + 1];
      }
      LegacyBindFrame(slots[1..], input, mapping, w, Put(argv, rs[0].key, v), pos', k);
      LookupPut(argv, rs[0].key, v, k);
    }
  }

  /**
    The keys of the result are the keys already there and the renamed key of
    every argument: nothing else is stored.
   */
  lemma {:induction false} LegacyBindKeys(slots: seq<Slot>, input: map<Key, Value>, mapping: Option<map<Key, Key>>, w: World,
                                          argv: Entries, pos: int, k: Key)
    requires LegacyBind(slots, input, mapping, w, argv, pos).Ok?
    ensures k in KeysOf(LegacyBind(slots, input, mapping, w, argv, pos).value) <==>
              k in KeysOf(argv) || exists i :: 0 <= i < |slots| && LegacyReads(slots, input, mapping, pos)[i].key == k
    decreases |slots|
  {
    if |slots| > 0 {
      var rs := LegacyReads(slots, input, mapping, pos);
      LegacyBindUnfold(slots, input, mapping, w, argv, pos);
      var v := LegacyTransformViaArgument(rs[0].raw, slots[0], w).value;
      var pos' := LegacyLookup(input, rs[0].key, pos).1;
      var argv' := Put(argv, rs[0].key, v);
      LegacyBindKeys(slots[1..], input, mapping, w, argv', pos', k);
      assert k in KeysOf(argv') <==> k in KeysOf(argv) || k == rs[0].key;
      ReadKeyInTail(rs, k);
    }
  }

  /** A key is read by some argument exactly when the first or a later one reads it. */
  lemma ReadKeyInTail(rs: seq<Read>, k: Key)
    requires |rs| > 0
    ensures (exists i :: 0 <= i < |rs| && rs[i].key == k) <==>
              rs[0].key == k || exists i :: 0 <= i < |rs[1..]| && rs[1..][i].key == k
  {
    if exists i :: 0 <= i < |rs[1..]| && rs[1..][i].key == k {
      var i :| 0 <= i < |rs[1..]| && rs[1..][i].key == k;
      assert rs[i + 1] == rs[1..][i];
    }
    if exists i :: 0 <= i < |rs| && rs[i].key == k {
      var i :| 0 <= i < |rs| && rs[i].key == k;
      if i > 0 { assert rs[1..][i - 1] == rs[i]; }
    }
  }

  /**
    An argument that no later argument shares its renamed key with ends up
    in the result under that key, holding the resolution of its own raw
    value.
   */
  lemma {:induction false} LegacyBindValueAt(slots: seq<Slot>, input: map<Key, Value>, mapping: Option<map<Key, Key>>, w: World,
                                             argv: Entries, pos: int, i: nat)
    requires LegacyBind(slots, input, mapping, w, argv, pos).Ok? && i < |slots|
    requires var rs := LegacyReads(slots, input, mapping, pos);
             forall j :: i < j < |slots| ==> rs[j].key != rs[i].key
    ensures var rs := LegacyReads(slots, input, mapping, pos);
            LegacyTransformViaArgument(rs[i].raw, slots[i], w).Ok?
            && Lookup(LegacyBind(slots, input, mapping, w, argv, pos).value, rs[i].key)
               == Some(LegacyTransformViaArgument(rs[i].raw, slots[i], w).value)
    decreases |slots|
  {
    var rs := LegacyReads(slots, input, mapping, pos);
    LegacyBindUnfold(slots, input, mapping, w, argv, pos);
    var v := LegacyTransformViaArgument(rs[0].raw, slots[0], w).value;
    var pos' := LegacyLookup(input, rs[0].key, pos).1;
    var argv' := Put(argv, rs[0].key, v);
    if i == 0 {
      forall j | 0 <= j < |slots[1..]| ensures rs[1..][j].key != rs[0].key {
        assert rs[1..][j] == rs[j + 1];
      }
      LegacyBindFrame(slots[1..], input, mapping, w, argv', pos', rs[0].key);
      LookupPut(argv, rs[0].key, v, rs[0].key);
    } else {
      assert rs[1..][i - 1] == rs[i] && slots[1..][i - 1] == slots[i];
      forall j | i - 1 < j < |slots[1..]| ensures rs[1..][j].key != rs[1..][i - 1].key {
        assert rs[1..][j] == rs[j + 1];
      }
      LegacyBindValueAt(slots[1..], input, mapping, w, argv', pos', i - 1);
    }
  }

  /**
    `transform` from an empty vector and cursor 0: it succeeds exactly when
    every argument's read resolves, and then holds exactly the renamed keys.
   */
  function Transform(slots: seq<Slot>, input: map<Key, Value>, mapping: Option<map<Key, Key>>, w: World): (r: Result<Entries, Error>)
    ensures r.Err? ==> r.error == EngineError
    ensures r.Ok? ==> UniqueKeys(r.value) && |r.value| <= |slots|
    ensures r.Ok? <==> forall i :: 0 <= i < |slots| ==>
              LegacyTransformViaArgument(LegacyReads(slots, input, mapping, 0)[i].raw, slots[i], w).Ok?
    ensures r.Ok? ==> forall k :: k in KeysOf(r.value) <==>
              exists i :: 0 <= i < |slots| && LegacyReads(slots, input, mapping, 0)[i].key == k
  {
    LegacyBindOk(slots, input, mapping, w, [], 0);
    var r := LegacyBind(slots, input, mapping, w, [], 0);
    assert r.Ok? ==> forall k :: k in KeysOf(r.value) <==>
             exists i :: 0 <= i < |slots| && LegacyReads(slots, input, mapping, 0)[i].key == k by {
      if r.Ok? {
        forall k ensures k in KeysOf(r.value) <==> exists i :: 0 <= i < |slots| && LegacyReads(slots, input, mapping, 0)[i].key == k {
          LegacyBindKeys(slots, input, mapping, w, [], 0, k);
        }
      }
    }
    r
  }

  /**
    Two arguments renamed to the same key that the input holds give one
    entry, holding the second argument's value.
   */
  lemma SameKeyOverwrites(a: Slot, b: Slot, input: map<Key, Value>, m: map<Key, Key>, w: World, k: Key)
    requires KStr(a.name) in m && KStr(b.name) in m && m[KStr(a.name)] == k && m[KStr(b.name)] == k
    requires k in input
    requires LegacyTransformViaArgument(input[k], a, w).Ok? && LegacyTransformViaArgument(input[k], b, w).Ok?
    ensures Transform([a, b], input, Some(m), w) == Ok([(k, LegacyTransformViaArgument(input[k], b, w).value)])
  {
    var va := LegacyTransformViaArgument(input[k], a, w).value;
    var vb := LegacyTransformViaArgument(input[k], b, w).value;
    assert LegacyName(a.name, 0, Some(m)) == k && LegacyLookup(input, k, 0) == (input[k], 0);
    assert LegacyName(b.name, 0, Some(m)) == k;
    assert [a, b][1..] == [b] && [b][1..] == [];
    assert Put([], k, va) == [(k, va)];
    assert Put([(k, va)], k, vb) == [(k, vb)];
    calc {
      Transform([a, b], input, Some(m), w);
      LegacyBind([a, b], input, Some(m), w, [], 0);
      LegacyBind([b], input, Some(m), w, [(k, va)], 0);
      LegacyBind([], input, Some(m), w, [(k, vb)], 0);
    }
  }

  /** Missing input is never an error: an argument with no entry resolves from null. */
  lemma MissingInputResolvesNull(slot: Slot, w: World)
    requires forall i :: 0 <= i < |slot.candidates| ==>
               slot.candidates[i].kind.Named? && MapSpecialName(slot.candidates[i].kind.name, slot, w) !in w.classes
    ensures Transform([slot], map[], None, w) == Ok([(KStr(slot.name), slot.defaultValue.GetOr(Null))])
  {
    LegacyAgreesWithFirstDecisive(Null, slot, w);
    var rs := LegacyResults(slot.candidates, Null, slot, w);
    forall i | 0 <= i < |rs|
      ensures !Decides(rs[i], Null)
    {
      assert rs[i] == Ok(Null);
    }
    var v := slot.defaultValue.GetOr(Null);
    assert LegacyTransformViaArgument(Null, slot, w) == Ok(v);
    assert LegacyLookup(map[], KStr(slot.name), 0) == (Null, 0);
    assert [slot][1..] == [];
    assert Put([], KStr(slot.name), v) == [(KStr(slot.name), v)];
    calc {
      Transform([slot], map[], None, w);
      LegacyBind([slot], map[], None, w, [], 0);
      LegacyBind([], map[], None, w, [(KStr(slot.name), v)], 0);
    }
  }
}

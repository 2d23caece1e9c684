/**
  The per-candidate pieces both resolvers share (the `'null'` literal, the
  builtin casts) and the rule that picks among candidate results: the first
  one that throws or yields a value that is non-null and not identical to
  the raw input decides; otherwise the raw input stands, replaced by the
  slot's default (or null) when it is null.
 */
module Coercion {
  import opened Wrappers
  import opened PhpValues
  import opened Reflection

  /**
    `'null' === $value && $type->allowsNull()`: the literal string `null`
    becomes null for a candidate that admits null; every other value, and the
    literal for a candidate that does not admit null, passes unchanged.
   */
  function NullLiteral(raw: Value, cand: Candidate): (v: Value)
    ensures raw == Str("null") ==> (v == Null <==> cand.allowsNull)
    ensures raw == Str("null") && !cand.allowsNull ==> v == raw
    ensures raw != Str("null") ==> v == raw
  {
    if raw == Str("null") && cand.allowsNull then Null else raw
  }

  /** The builtin type names that select a scalar cast. */
  predicate IsScalarName(name: string) {
    name in {"int", "integer", "bool", "boolean", "float", "double", "real", "string"}
  }

  /**
    The builtin candidate rule: a scalar cast for the scalar names, the value
    unchanged for every other builtin (`mixed`, `array`, ...).
   */
  function CastBuiltin(name: string, v: Value, floats: FloatOps): (r: Result<Value, Error>)
    ensures !IsScalarName(name) ==> r == Ok(v)
    ensures r.Err? <==> name == "string" && v.Obj?
    ensures IsScalarName(name) && r.Ok? ==> r.value != Null
    ensures (name == "int" || name == "integer") ==> r == Ok(Int(ToInt(v, floats)))
    ensures (name == "bool" || name == "boolean") ==> r == Ok(Bool(ToBool(v, floats)))
    ensures (name == "float" || name == "double" || name == "real") ==> r == Ok(ToFloat(v, floats))
    ensures name == "string" && !v.Obj? ==> r == Ok(Str(ToString(v, floats).value))
  {
    if name == "int" || name == "integer" then Ok(Int(ToInt(v, floats)))
    else if name == "bool" || name == "boolean" then Ok(Bool(ToBool(v, floats)))
    else if name == "float" || name == "double" || name == "real" then Ok(ToFloat(v, floats))
    else if name == "string" then
      var s :- ToString(v, floats);
      Ok(Str(s))
    else Ok(v)
  }

  /** `!is_null($newValue) && $newValue !== $value`. */
  predicate Wins(raw: Value, v: Value) {
    v != Null && v != raw
  }

  /**
    A scalar cast never yields null, so a scalar candidate wins exactly when
    its cast changes the value: `!==` against the raw value is the whole test.
   */
  lemma ScalarCastWinsWhenItChanges(name: string, v: Value, floats: FloatOps)
    requires IsScalarName(name) && CastBuiltin(name, v, floats).Ok?
    ensures Wins(v, CastBuiltin(name, v, floats).value) <==> CastBuiltin(name, v, floats).value != v
  {
  }

  /** A candidate result that ends the search: a thrown error or a winning value. */
  predicate Decides(r: Result<Value, Error>, raw: Value) {
    r.Err? || Wins(raw, r.value)
  }

  /**
    The first deciding result in candidate order, None when no candidate
    decides.
   */
  function FirstDecisive(results: seq<Result<Value, Error>>, raw: Value): (d: Option<Result<Value, Error>>)
    ensures d.None? <==> forall j :: 0 <= j < |results| ==> !Decides(results[j], raw)
    ensures d.Some? ==> exists j :: 0 <= j < |results| && d.value == results[j] && Decides(results[j], raw)
                                   && forall k :: 0 <= k < j ==> !Decides(results[k], raw)
  {
    if |results| == 0 then None
    else if Decides(results[0], raw) then Some(results[0])
    else
      var d := FirstDecisive(results[1..], raw);
      assert d.Some? ==> exists j :: 1 <= j < |results| && d.value == results[j] && Decides(results[j], raw)
                                   && forall k :: 0 <= k < j ==> !Decides(results[k], raw) by {
        if d.Some? {
          var j :| 0 <= j < |results[1..]| && d.value == results[1..][j] && Decides(results[1..][j], raw)
                   && forall k :: 0 <= k < j ==> !Decides(results[1..][k], raw);
          assert forall k :: 0 <= k < j + 1 ==> !Decides(results[k], raw) by {
            forall k | 0 <= k < j + 1 ensures !Decides(results[k], raw) {
              if k > 0 { assert results[k] == results[1..][k - 1]; }
            }
          }
        }
      }
      d
  }

  /** A deciding result preceded only by non-deciding ones is the one picked. */
  lemma {:induction false} FirstDecisiveAt(results: seq<Result<Value, Error>>, raw: Value, j: nat)
    requires j < |results| && Decides(results[j], raw)
    requires forall k :: 0 <= k < j ==> !Decides(results[k], raw)
    ensures FirstDecisive(results, raw) == Some(results[j])
    decreases j
  {
    if j > 0 {
      assert !Decides(results[0], raw);
      assert results[1..][j - 1] == results[j];
      FirstDecisiveAt(results[1..], raw, j - 1);
    }
  }

  /** What the resolver returns when no candidate decides: the default for a null input. */
  function Fallback(slot: Slot, raw: Value): (v: Value)
    ensures raw != Null ==> v == raw
    ensures raw == Null && slot.defaultValue.Some? ==> v == slot.defaultValue.value
    ensures raw == Null && slot.defaultValue.None? ==> v == Null
  {
    if raw == Null then slot.defaultValue.GetOr(Null) else raw
  }

  /** The deciding result, or the fallback value when nothing decided. */
  function Settle(d: Option<Result<Value, Error>>, slot: Slot, raw: Value): Result<Value, Error> {
    if d.Some? then d.value else Ok(Fallback(slot, raw))
  }
}

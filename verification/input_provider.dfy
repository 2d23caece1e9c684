/**
  The input cursor of one resolution call: the entry map, the positional
  cursor, the pending consumption marked by the last lookup, and the backup
  of entries removed since the last `initBackup`.
 */
module InputProvider {
  import opened Wrappers
  import opened PhpValues
  import opened Configuration

  datatype Provider = Provider(
    config: Config,
    input: map<Key, Value>,
    backup: map<Key, Value>,
    pos: int,
    backupPosition: int,
    lastInputKey: Option<Key>  // the pending consumption, committed by DeleteLastInput
  )

  /** A provider over an explicit input map. */
  function New(input: map<Key, Value>, config: Config): (p: Provider)
    ensures p.input == input && p.config == config
    ensures p.backup == map[] && p.pos == 0 && p.lastInputKey.None?
  {
    Provider(config, input, map[], 0, 0, None)
  }

  /** Where a lookup finds its entry. */
  datatype Hit = ByName | ByPosition | Nowhere

  /**
    The lookup order shared by the provider and the callable resolver: the
    entry under the (mapped) name, else the entry whose key is exactly the
    cursor, else nothing.
   */
  function Locate(input: map<Key, Value>, name: Key, pos: int): (h: Hit)
    ensures h == ByName <==> name in input
    ensures h == ByPosition <==> name !in input && KInt(pos) in input
    ensures h == Nowhere <==> name !in input && KInt(pos) !in input
  {
    if name in input then ByName else if KInt(pos) in input then ByPosition else Nowhere
  }

  /** `inputIsEmpty`. */
  function InputIsEmpty(p: Provider): (b: bool)
    ensures b <==> forall k :: k !in p.input
  {
    assert |p.input| > 0 ==> exists k :: k in p.input by {
      if |p.input| > 0 {
        var k :| k in p.input.Keys;
      }
    }
    |p.input| == 0
  }

  /** The provider fields a lookup never changes. */
  predicate SameButPending(p: Provider, q: Provider) {
    q.config == p.config && q.input == p.input && q.backup == p.backup
    && q.pos == p.pos && q.backupPosition == p.backupPosition
  }

  /**
    `getInput($key)`: the entry under the mapped name, marking the caller's
    unmapped key pending; else the entry at the cursor, marking the cursor
    pending; else null when missing input is allowed; else NoInputException.
    Only the pending marker ever changes.
   */
  function GetInput(p: Provider, key: string): (r: (Provider, Result<Value, Error>))
    ensures SameButPending(p, r.0)
    ensures GetMapped(p.config, key) in p.input ==>
              r.1 == Ok(p.input[GetMapped(p.config, key)]) && r.0.lastInputKey == Some(KStr(key))
    ensures GetMapped(p.config, key) !in p.input && KInt(p.pos) in p.input ==>
              r.1 == Ok(p.input[KInt(p.pos)]) && r.0.lastInputKey == Some(KInt(p.pos))
    ensures GetMapped(p.config, key) !in p.input && KInt(p.pos) !in p.input ==>
              r.0 == p && r.1 == (if p.config.noInputIsAllowed then Ok(Null) else Err(NoInputException))
  {
    var name := GetMapped(p.config, key);
    match Locate(p.input, name, p.pos)
    case ByName => (p.(lastInputKey := Some(KStr(key))), Ok(p.input[name]))
    case ByPosition => (p.(lastInputKey := Some(KInt(p.pos))), Ok(p.input[KInt(p.pos)]))
    case Nowhere => (p, if p.config.noInputIsAllowed then Ok(Null) else Err(NoInputException))
  }

  /**
    `deleteLastInput`: a pending string key still present moves its entry
    into the backup; a pending position advances the cursor by one; either
    clears the marker. Anything else changes nothing.
   */
  function DeleteLastInput(p: Provider): (q: Provider)
    ensures q.config == p.config && q.backupPosition == p.backupPosition
    ensures (p.lastInputKey.Some? && p.lastInputKey.value.KStr? && p.lastInputKey.value in p.input) ==>
              var k := p.lastInputKey.value;
              q.input == p.input - {k} && q.backup == p.backup[k := p.input[k]]
              && q.pos == p.pos && q.lastInputKey.None?
    ensures (p.lastInputKey.Some? && p.lastInputKey.value.KInt?) ==>
              q.input == p.input && q.backup == p.backup && q.pos == p.pos + 1 && q.lastInputKey.None?
    ensures (p.lastInputKey.None? || (p.lastInputKey.value.KStr? && p.lastInputKey.value !in p.input)) ==> q == p
  {
    match p.lastInputKey
    case Some(KStr(s)) =>
      if KStr(s) in p.input then
        p.(backup := p.backup[KStr(s) := p.input[KStr(s)]], input := p.input - {KStr(s)}, lastInputKey := None)
      else p
    case Some(KInt(_)) => p.(pos := p.pos + 1, lastInputKey := None)
    case None => p
  }

  /** `initBackup`: an empty backup and the cursor recorded as the restore point. */
  function InitBackup(p: Provider): (q: Provider)
    ensures q.backup == map[] && q.backupPosition == p.pos
    ensures q.input == p.input && q.pos == p.pos && q.config == p.config && q.lastInputKey == p.lastInputKey
  {
    p.(backup := map[], backupPosition := p.pos)
  }

  /** `restoreBackup`: the cursor reset to the restore point and every backed-up entry put back. */
  function RestoreBackup(p: Provider): (q: Provider)
    ensures q.pos == p.backupPosition && q.backup == map[]
    ensures q.input.Keys == p.input.Keys + p.backup.Keys
    ensures forall k :: k in p.backup ==> q.input[k] == p.backup[k]
    ensures forall k :: k in p.input && k !in p.backup ==> q.input[k] == p.input[k]
    ensures q.config == p.config && q.backupPosition == p.backupPosition && q.lastInputKey == p.lastInputKey
  {
    p.(pos := p.backupPosition, input := p.input + p.backup, backup := map[])
  }

  /** The provider calls a member attempt makes between initBackup and restoreBackup. */
  datatype Action = Get(key: string) | Delete

  function Perform(p: Provider, a: Action): Provider {
    match a
    case Get(key) => GetInput(p, key).0
    case Delete => DeleteLastInput(p)
  }

  function PerformAll(p: Provider, actions: seq<Action>): Provider
    decreases |actions|
  {
    if |actions| == 0 then p else PerformAll(Perform(p, actions[0]), actions[1..])
  }

  /**
    The backup accounts exactly for what was consumed since the restore
    point: remaining and backed-up entries are disjoint and together form
    the input as it was.
   */
  ghost predicate Restorable(p: Provider, base: map<Key, Value>, basePos: int) {
    p.input.Keys !! p.backup.Keys && p.input + p.backup == base && p.backupPosition == basePos
  }

  lemma PerformKeepsRestorable(p: Provider, a: Action, base: map<Key, Value>, basePos: int)
    requires Restorable(p, base, basePos)
    ensures Restorable(Perform(p, a), base, basePos)
  {
    if a.Delete? && p.lastInputKey.Some? && p.lastInputKey.value.KStr? && p.lastInputKey.value in p.input {
      var k := p.lastInputKey.value;
      var q := DeleteLastInput(p);
      assert q.input + q.backup == p.input + p.backup;
    }
  }

  lemma {:induction false} PerformAllKeepsRestorable(p: Provider, actions: seq<Action>, base: map<Key, Value>, basePos: int)
    requires Restorable(p, base, basePos)
    ensures Restorable(PerformAll(p, actions), base, basePos)
    decreases |actions|
  {
    if |actions| > 0 {
      PerformKeepsRestorable(p, actions[0], base, basePos);
      PerformAllKeepsRestorable(Perform(p, actions[0]), actions[1..], base, basePos);
    }
  }

  /**
    Rollback: whatever lookups and commits follow `initBackup`,
    `restoreBackup` returns the entry map and the cursor to their values at
    `initBackup` and leaves the backup empty.
   */
  lemma Rollback(p: Provider, actions: seq<Action>)
    ensures RestoreBackup(PerformAll(InitBackup(p), actions)).input == p.input
    ensures RestoreBackup(PerformAll(InitBackup(p), actions)).pos == p.pos
    ensures RestoreBackup(PerformAll(InitBackup(p), actions)).backup == map[]
  {
    var q := InitBackup(p);
    assert q.input + q.backup == p.input;
    PerformAllKeepsRestorable(q, actions, p.input, p.pos);
  }

  /**
    The positional fallback looks only at the key equal to the cursor: with
    no entry there, the lookup yields null or NoInputException even when
    later positions hold entries.
   */
  lemma PositionalGapEndsSupply(p: Provider, key: string, later: int)
    requires GetMapped(p.config, key) !in p.input && KInt(p.pos) !in p.input
    requires later > p.pos && KInt(later) in p.input
    ensures GetInput(p, key).1 == (if p.config.noInputIsAllowed then Ok(Null) else Err(NoInputException))
  {
  }
}

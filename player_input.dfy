/** The keyboard half of `BasicCharacterControllerInput` in
    src/player-input.js: six movement flags, set by `keydown` and cleared
    by `keyup` for six key codes. */
module PlayerInput {
  import opened Wrappers

  /** The six keys the controller tracks. */
  datatype Key = Forward | Backward | Left | Right | Space | Shift

  /** `_keys`. */
  datatype Keys = Keys(forward: bool, backward: bool, left: bool, right: bool, space: bool, shift: bool)

  /** `_Init`: every key released. */
  const Released: Keys := Keys(false, false, false, false, false, false)

  /** The key a key code stands for, as both `switch` statements map them:
      W, A, S, D, space and shift. */
  function KeyOf(code: int): (k: Option<Key>)
    ensures k.Some? <==> code in {87, 65, 83, 68, 32, 16}
  {
    if code == 87 then Some(Forward)
    else if code == 65 then Some(Left)
    else if code == 83 then Some(Backward)
    else if code == 68 then Some(Right)
    else if code == 32 then Some(Space)
    else if code == 16 then Some(Shift)
    else None
  }

  /** The key code of each key. */
  function CodeOf(k: Key): int
  {
    match k
    case Forward => 87
    case Left => 65
    case Backward => 83
    case Right => 68
    case Space => 32
    case Shift => 16
  }

  /** Each tracked key has exactly one code: `KeyOf` and `CodeOf` are
      inverse. */
  lemma KeyCodesInverse(k: Key, code: int)
    ensures KeyOf(CodeOf(k)) == Some(k)
    ensures KeyOf(code).Some? ==> CodeOf(KeyOf(code).value) == code
  {
  }

  /** The flag of key `k`. */
  function Flag(keys: Keys, k: Key): bool
  {
    match k
    case Forward => keys.forward
    case Backward => keys.backward
    case Left => keys.left
    case Right => keys.right
    case Space => keys.space
    case Shift => keys.shift
  }

  /** Two flag sets are equal exactly when they agree on every key. */
  lemma KeysEqual(a: Keys, b: Keys)
    requires forall k :: Flag(a, k) == Flag(b, k)
    ensures a == b
  {
    assert Flag(a, Forward) == Flag(b, Forward) && Flag(a, Backward) == Flag(b, Backward);
    assert Flag(a, Left) == Flag(b, Left) && Flag(a, Right) == Flag(b, Right);
    assert Flag(a, Space) == Flag(b, Space) && Flag(a, Shift) == Flag(b, Shift);
  }

  /** `keys` with the flag of `k` set to `v`. */
  function WithFlag(keys: Keys, k: Key, v: bool): (r: Keys)
    ensures Flag(r, k) == v
    ensures forall j :: j != k ==> Flag(r, j) == Flag(keys, j)
  {
    match k
    case Forward => keys.(forward := v)
    case Backward => keys.(backward := v)
    case Left => keys.(left := v)
    case Right => keys.(right := v)
    case Space => keys.(space := v)
    case Shift => keys.(shift := v)
  }

  /** The flags after a `keydown` of `code`. */
  function KeyDown(keys: Keys, code: int): Keys
  {
    match KeyOf(code)
    case Some(k) => WithFlag(keys, k, true)
    case None => keys
  }

  /** The flags after a `keyup` of `code`. */
  function KeyUp(keys: Keys, code: int): Keys
  {
    match KeyOf(code)
    case Some(k) => WithFlag(keys, k, false)
    case None => keys
  }

  /** Initially no key is held. */
  lemma ReleasedHoldsNothing(k: Key)
    ensures !Flag(Released, k)
  {
  }

  /** A `keydown` of a tracked code sets that key's flag and no other;
      any other code changes nothing. */
  lemma KeyDownSetsOne(keys: Keys, code: int)
    ensures KeyOf(code).None? ==> KeyDown(keys, code) == keys
    ensures KeyOf(code).Some? ==>
      Flag(KeyDown(keys, code), KeyOf(code).value) &&
      forall j :: j != KeyOf(code).value ==> Flag(KeyDown(keys, code), j) == Flag(keys, j)
  {
  }

  /** A `keyup` of a tracked code clears that key's flag and no other;
      any other code changes nothing. */
  lemma KeyUpClearsOne(keys: Keys, code: int)
    ensures KeyOf(code).None? ==> KeyUp(keys, code) == keys
    ensures KeyOf(code).Some? ==>
      !Flag(KeyUp(keys, code), KeyOf(code).value) &&
      forall j :: j != KeyOf(code).value ==> Flag(KeyUp(keys, code), j) == Flag(keys, j)
  {
  }

  /** Each event changes at most one flag. */
  lemma OneFlagPerEvent(keys: Keys, code: int, j: Key, k: Key)
    requires j != k
    ensures Flag(KeyDown(keys, code), j) == Flag(keys, j) || Flag(KeyDown(keys, code), k) == Flag(keys, k)
    ensures Flag(KeyUp(keys, code), j) == Flag(keys, j) || Flag(KeyUp(keys, code), k) == Flag(keys, k)
  {
  }

  /** Holding a key down repeats `keydown`; the repeats change nothing. */
  lemma {:induction false} KeyDownIdempotent(keys: Keys, code: int)
    ensures KeyDown(KeyDown(keys, code), code) == KeyDown(keys, code)
  {
    var once := KeyDown(keys, code);
    forall k ensures Flag(KeyDown(once, code), k) == Flag(once, k) {
      KeyDownSetsOne(once, code);
      KeyDownSetsOne(keys, code);
    }
    KeysEqual(KeyDown(once, code), once);
  }

  /** Releasing a key undoes pressing it when it was not held before. */
  lemma {:induction false} KeyUpUndoesKeyDown(keys: Keys, code: int)
    requires KeyOf(code).Some? ==> !Flag(keys, KeyOf(code).value)
    ensures KeyUp(KeyDown(keys, code), code) == keys
  {
    if KeyOf(code).Some? {
      SetThenClear(keys, KeyOf(code).value);
    }
  }

  /** Setting and then clearing the flag of a key that was clear gives
      back the flags it started from. */
  lemma SetThenClear(keys: Keys, k: Key)
    requires !Flag(keys, k)
    ensures WithFlag(WithFlag(keys, k, true), k, false) == keys
  {
  }

  /** `BasicCharacterControllerInput`, keyboard part. */
  class CharacterControllerInput {
    /** `_keys`. */
    var keys: Keys

    /** `constructor` / `_Init`. */
    constructor()
      ensures keys == Released
    {
      keys := Released;
    }

    /** `_onKeyDown(event)`. */
    method OnKeyDown(keyCode: int)
      modifies this
      ensures keys == KeyDown(old(keys), keyCode)
    {
      if keyCode == 87 {
        keys := keys.(forward := true);
      } else if keyCode == 65 {
        keys := keys.(left := true);
      } else if keyCode == 83 {
        keys := keys.(backward := true);
      } else if keyCode == 68 {
        keys := keys.(right := true);
      } else if keyCode == 32 {
        keys := keys.(space := true);
      } else if keyCode == 16 {
        keys := keys.(shift := true);
      }
    }

    /** `_onKeyUp(event)`. */
    method OnKeyUp(keyCode: int)
      modifies this
      ensures keys == KeyUp(old(keys), keyCode)
    {
      if keyCode == 87 {
        keys := keys.(forward := false);
      } else if keyCode == 65 {
        keys := keys.(left := false);
      } else if keyCode == 83 {
        keys := keys.(backward := false);
      } else if keyCode == 68 {
        keys := keys.(right := false);
      } else if keyCode == 32 {
        keys := keys.(space := false);
      } else if keyCode == 16 {
        keys := keys.(shift := false);
      }
    }
  }
}

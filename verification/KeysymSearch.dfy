// Search of the keymap for the key that produces a symbol.
module KeysymSearch {
  import opened InputEvents

  /** What XKB answers: the number of layouts of a keycode, and the symbols of a keycode in
      a layout at a shift level.  There may be no keymap at all. */
  datatype Keymap =
    | NoKeymap
    | Keymap(layouts: nat -> nat, symbols: (nat, nat, nat) -> seq<uint32>)

  predicate InLayout(km: Keymap, sym: uint32, level: nat, code: nat, layout: nat)
    requires km.Keymap?
  {
    sym in km.symbols(code + 8, layout, level)
  }

  /** The key with this evdev code yields sym at this level in one of its layouts. */
  predicate Produces(km: Keymap, sym: uint32, level: nat, code: nat) {
    km.Keymap? && exists layout :: 0 <= layout < km.layouts(code + 8) && InLayout(km, sym, level, code, layout)
  }

  /** The first code from c on that yields sym at the level, or 0. */
  function FirstCode(km: Keymap, sym: uint32, level: nat, c: nat): (r: nat)
    requires KEY_ESC <= c <= KEY_MAX
    ensures r != 0 ==> c <= r < KEY_MAX && Produces(km, sym, level, r)
    ensures forall d :: c <= d < (if r == 0 then KEY_MAX else r) ==> !Produces(km, sym, level, d)
    decreases KEY_MAX - c
  {
    if c == KEY_MAX then 0
    else if Produces(km, sym, level, c) then c
    else FirstCode(km, sym, level, c + 1)
  }

  /** The key to press for sym: unshifted if possible. */
  function Resolved(km: Keymap, sym: uint32): (r: nat)
    ensures r < KEY_MAX
  {
    var plain := FirstCode(km, sym, 0, KEY_ESC);
    if plain != 0 then plain else FirstCode(km, sym, 1, KEY_ESC)
  }

  /** (level, code) comes before (m, d) in the order of the search. */
  predicate Before(level: nat, code: nat, m: nat, d: nat) {
    level < m || (level == m && code < d)
  }

  /** (level, code) is the lexicographically least candidate that yields sym. */
  ghost predicate IsLeast(km: Keymap, sym: uint32, level: nat, code: nat) {
    && level <= 1 && KEY_ESC <= code < KEY_MAX && Produces(km, sym, level, code)
    && forall m, d: nat :: m <= 1 && KEY_ESC <= d < KEY_MAX && Before(m, d, level, code)
                           ==> !Produces(km, sym, m, d)
  }

  /** The result is the least match, and 0 exactly when nothing matches. */
  lemma ResolvedIsLeast(km: Keymap, sym: uint32)
    ensures Resolved(km, sym) == 0 <==>
            forall level, code: nat :: level <= 1 && KEY_ESC <= code < KEY_MAX ==> !Produces(km, sym, level, code)
    ensures forall level, code: nat :: IsLeast(km, sym, level, code) ==> Resolved(km, sym) == code
    ensures Resolved(km, sym) != 0 ==> exists level: nat :: IsLeast(km, sym, level, Resolved(km, sym))
  {
    var plain, shifted := FirstCode(km, sym, 0, KEY_ESC), FirstCode(km, sym, 1, KEY_ESC);
    if plain != 0 {
      assert IsLeast(km, sym, 0, plain);
    } else if shifted != 0 {
      assert IsLeast(km, sym, 1, shifted);
    }
    forall level, code: nat | IsLeast(km, sym, level, code) ensures Resolved(km, sym) == code {
      if plain != 0 {
        assert !Before(0, plain, level, code);
      } else if shifted != 0 {
        assert !Before(1, shifted, level, code);
      }
    }
  }

  /** An XKB keycode yields sym at a level in one of its layouts. */
  ghost predicate Yields(km: Keymap, sym: uint32, level: nat, keycode: nat)
    requires km.Keymap?
  {
    exists layout :: 0 <= layout < km.layouts(keycode) && sym in km.symbols(keycode, layout, level)
  }

  /** Over the keymap's own keycodes, which are 8 above the evdev codes: the result is the
      key whose keycode is the least at the lower level. */
  lemma ResolvedIsLeastKeycode(km: Keymap, sym: uint32, level: nat, keycode: nat)
    requires km.Keymap? && level <= 1 && 9 <= keycode < 0x2ff + 8 && Yields(km, sym, level, keycode)
    requires forall m: nat, k: nat :: m <= 1 && 9 <= k < 0x2ff + 8 && (m < level || (m == level && k < keycode))
                                 ==> !Yields(km, sym, m, k)
    ensures Resolved(km, sym) == keycode - 8
  {
    ResolvedIsLeast(km, sym);
    assert forall m: nat, c: nat :: Produces(km, sym, m, c) ==> Yields(km, sym, m, c + 8);
    var layout :| 0 <= layout < km.layouts(keycode) && sym in km.symbols(keycode, layout, level);
    assert InLayout(km, sym, level, keycode - 8, layout);
    assert IsLeast(km, sym, level, keycode - 8);
  }

  /** And 0 if no keycode in that range yields the symbol. */
  lemma NothingYields(km: Keymap, sym: uint32)
    requires km.Keymap? ==>
               forall m: nat, k: nat :: m <= 1 && 9 <= k < 0x2ff + 8 ==> !Yields(km, sym, m, k)
    ensures Resolved(km, sym) == 0
  {
    ResolvedIsLeast(km, sym);
    if km.Keymap? { assert forall m: nat, c: nat :: Produces(km, sym, m, c) ==> Yields(km, sym, m, c + 8); }
  }

  /** The two inner loops: does some layout of this key yield sym at this level? */
  method FindInLayouts(km: Keymap, sym: uint32, level: nat, evdev: nat) returns (found: bool)
    requires km.Keymap?
    ensures found == Produces(km, sym, level, evdev)
  {
    var layout := 0;
    while layout < km.layouts(evdev + 8)
      invariant 0 <= layout <= km.layouts(evdev + 8)
      invariant forall k :: 0 <= k < layout ==> !InLayout(km, sym, level, evdev, k)
    {
      var symbols := km.symbols(evdev + 8, layout, level);
      var i := 0;
      while i < |symbols|
        invariant 0 <= i <= |symbols|
        invariant sym !in symbols[..i]
      {
        if symbols[i] == sym {
          assert InLayout(km, sym, level, evdev, layout);
          return true;
        }
        i := i + 1;
      }
      assert symbols[..i] == symbols;
      layout := layout + 1;
    }
    return false;
  }

  /** The loop over the codes at one level. */
  method FindAtLevel(km: Keymap, sym: uint32, level: nat) returns (code: nat)
    requires km.Keymap?
    ensures code == FirstCode(km, sym, level, KEY_ESC)
  {
    var evdev := KEY_ESC;
    while evdev < KEY_MAX
      invariant KEY_ESC <= evdev <= KEY_MAX
      invariant FirstCode(km, sym, level, KEY_ESC) == FirstCode(km, sym, level, evdev)
    {
      var found := FindInLayouts(km, sym, level, evdev);
      if found { return evdev; }
      evdev := evdev + 1;
    }
    return 0;
  }

  /** resolve_keysym */
  method ResolveKeysym(km: Keymap, sym: uint32) returns (code: nat)
    ensures code == Resolved(km, sym)
  {
    if km.NoKeymap? {
      NothingWithoutKeymap(km, sym, 0);
      NothingWithoutKeymap(km, sym, 1);
      return 0;
    }
    var level := 0;
    while level <= 1
      invariant 0 <= level <= 2
      invariant level > 0 ==> FirstCode(km, sym, 0, KEY_ESC) == 0
      invariant level > 1 ==> FirstCode(km, sym, 1, KEY_ESC) == 0
    {
      code := FindAtLevel(km, sym, level);
      if code != 0 { return; }
      level := level + 1;
    }
    return 0;
  }

  lemma NothingWithoutKeymap(km: Keymap, sym: uint32, level: nat)
    requires km.NoKeymap?
    ensures FirstCode(km, sym, level, KEY_ESC) == 0
  {
  }
}

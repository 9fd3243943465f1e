// The widget logic of the immediate-mode UI in src-xpl/xpl_imui.c: textfield
// editing, the hot/active state machine of a button, the colour fallback of a
// widget state, key edge detection, default control ids, the scroll stack and
// the queue of typed characters. Drawing, layout and fonts are not modelled.

module Imui {
  import Color
  import Input
  import opened Arith
  import opened MathUtil

  const Two64: int := 0x1_0000_0000_0000_0000

  /** control_id is a uint64; CONTROL_NONE is 0. */
  type ControlId = x: int | 0 <= x < Two64
  const ControlNone: ControlId := 0

  const ScrollStackMax: nat := 10
  const MaxWaitingKeys: nat := 8
  const Nul: char := 0 as char

  // ---------------------------------------------------------------------
  // Colour fallback (color_chad)

  /** NO_COLOR is RGBA(0, 0, 0, 1): an alpha of one step marks an unset slot. */
  const NoColor: bv32 := Color.Rgba(0, 0, 0, 1)

  /** A _color_chad_t: one colour per widget state. */
  datatype Chad = Chad(cold: bv32, hot: bv32, active: bv32, disabled: bv32)

  /** color_chad: the colour for a widget that is disabled, active, hot or
      cold, falling back through the other slots when a slot is unset. */
  function ColorChad(enabled: bool, active: bool, hot: bool, c: Chad): bv32
  {
    if !enabled then
      if c.disabled != NoColor then c.disabled
      else if c.cold != NoColor then c.cold
      else if c.hot != NoColor then c.hot
      else c.active
    else if active then
      if c.active != NoColor then c.active
      else if c.hot != NoColor then c.hot
      else if c.cold != NoColor then c.cold
      else c.disabled
    else if hot then
      if c.hot != NoColor then c.hot
      else if c.cold != NoColor then c.cold
      else if c.active != NoColor then c.active
      else c.disabled
    else
      if c.cold != NoColor then c.cold
      else if c.hot != NoColor then c.hot
      else if c.active != NoColor then c.active
      else c.disabled
  }

  /** The order in which each state tries the four slots. */
  function Preference(enabled: bool, active: bool, hot: bool, c: Chad): (p: seq<bv32>)
    ensures |p| == 4
  {
    if !enabled then [c.disabled, c.cold, c.hot, c.active]
    else if active then [c.active, c.hot, c.cold, c.disabled]
    else if hot then [c.hot, c.cold, c.active, c.disabled]
    else [c.cold, c.hot, c.active, c.disabled]
  }

  /** The first set colour of a preference list, else its last entry. */
  function FirstSet(p: seq<bv32>): (i: nat)
    requires |p| > 0
    ensures i < |p|
    ensures forall j :: 0 <= j < i ==> p[j] == NoColor
    ensures i < |p| - 1 ==> p[i] != NoColor
    ensures i == |p| - 1 || p[i] != NoColor
  {
    if |p| == 1 || p[0] != NoColor then 0 else 1 + FirstSet(p[1..])
  }

  /** color_chad returns the first colour of the state's preference order that
      is not NO_COLOR, and the last slot of that order when all are unset. */
  lemma ColorChadFallsBack(enabled: bool, active: bool, hot: bool, c: Chad)
    ensures var p := Preference(enabled, active, hot, c);
      ColorChad(enabled, active, hot, c) == p[FirstSet(p)]
  {
    var p := Preference(enabled, active, hot, c);
    assert p[1..][1..][1..] == [p[3]];
    assert p[1..][1..] == [p[2], p[3]];
    assert p[1..] == [p[1], p[2], p[3]];
  }

  /** A slot that is set is used whenever the widget is in that slot's state. */
  lemma ColorChadPrefersOwnSlot(enabled: bool, active: bool, hot: bool, c: Chad)
    ensures !enabled && c.disabled != NoColor ==> ColorChad(enabled, active, hot, c) == c.disabled
    ensures enabled && active && c.active != NoColor ==> ColorChad(enabled, active, hot, c) == c.active
    ensures enabled && !active && hot && c.hot != NoColor ==> ColorChad(enabled, active, hot, c) == c.hot
    ensures enabled && !active && !hot && c.cold != NoColor ==> ColorChad(enabled, active, hot, c) == c.cold
  {
  }

  // ---------------------------------------------------------------------
  // Default control ids (control_gen_default_id)

  /** The low n bits of x | y, bit by bit from the least significant. */
  function OrBits(x: nat, y: nat, n: nat): nat
  {
    if n == 0 then 0
    else 2 * OrBits(x / 2, y / 2, n - 1) + (if x % 2 == 1 || y % 2 == 1 then 1 else 0)
  }

  /** The id of widget `widget` in area `area`: (area << 16) | widget on
      uint64 words, so the bits shifted past bit 63 are lost. */
  function DefaultId(area: ControlId, widget: ControlId): ControlId
  {
    OrBitsBelow(area * 0x1_0000, widget, 64);
    Pow2Widths();
    OrBits(area * 0x1_0000, widget, 64)
  }

  lemma Pow2Widths()
    ensures Pow2(16) == 0x1_0000 && Pow2(48) == 0x1_0000_0000_0000 && Pow2(64) == Two64
  {
    assert Pow2(2) == 4;
    assert Pow2(4) == 16;
    assert Pow2(6) == 64;
    assert Pow2(8) == 256;
    Pow2Add(8, 8);
    Pow2Add(16, 16);
    Pow2Add(32, 16);
    Pow2Add(48, 16);
  }

  lemma {:induction false} Pow2Add(a: nat, b: nat)
    ensures Pow2(a + b) == Pow2(a) * Pow2(b)
  {
    if b > 0 {
      Pow2Add(a, b - 1);
      assert Pow2(a + b) == 2 * Pow2(a + b - 1);
    }
  }

  /** n bits of OR stay below 2^n. */
  lemma {:induction false} OrBitsBelow(x: nat, y: nat, n: nat)
    ensures OrBits(x, y, n) < Pow2(n)
  {
    if n > 0 {
      OrBitsBelow(x / 2, y / 2, n - 1);
    }
  }

  /** OR with zero keeps a number that fits in n bits. */
  lemma {:induction false} OrBitsZero(x: nat, n: nat)
    requires x < Pow2(n)
    ensures OrBits(x, 0, n) == x
  {
    if n > 0 {
      OrBitsZero(x / 2, n - 1);
    }
  }

  /** OR of a number shifted left by k bits with one below 2^k is their sum. */
  lemma {:induction false} OrBitsShifted(x: nat, y: nat, k: nat, n: nat)
    requires k <= n && y < Pow2(k) && x * Pow2(k) < Pow2(n)
    ensures OrBits(x * Pow2(k), y, n) == x * Pow2(k) + y
  {
    if k == 0 {
      OrBitsZero(x, n);
    } else {
      var m := x * Pow2(k - 1);
      assert x * Pow2(k) == 2 * m;
      OrBitsShifted(x, y / 2, k - 1, n - 1);
    }
  }

  /** While the widget counter stays below 2^16 and the area counter below
      2^48, the id is area * 2^16 + widget. */
  lemma DefaultIdValue(area: ControlId, widget: ControlId)
    requires area < 0x1_0000_0000_0000 && widget < 0x1_0000
    ensures DefaultId(area, widget) == area * 0x1_0000 + widget
  {
    Pow2Widths();
    MulLess(area, 0x1_0000_0000_0000, 0x1_0000);
    OrBitsShifted(area, widget, 16, 64);
  }

  /** So an id gives back the area and the widget it was made from. */
  lemma DefaultIdParts(area: ControlId, widget: ControlId)
    requires area < 0x1_0000_0000_0000 && widget < 0x1_0000
    ensures DefaultId(area, widget) / 0x1_0000 == area
    ensures DefaultId(area, widget) % 0x1_0000 == widget
  {
    DefaultIdValue(area, widget);
    DivMod(DefaultId(area, widget), 0x1_0000, area, widget);
  }

  /** Hence two different (area, widget) pairs within those bounds never share
      an id. */
  lemma DefaultIdsDistinct(a: ControlId, w: ControlId, a': ControlId, w': ControlId)
    requires a < 0x1_0000_0000_0000 && w < 0x1_0000
    requires a' < 0x1_0000_0000_0000 && w' < 0x1_0000
    ensures DefaultId(a, w) == DefaultId(a', w') <==> a == a' && w == w'
  {
    DefaultIdParts(a, w);
    DefaultIdParts(a', w');
  }

  /** Within one area the next widget gets a larger id. */
  lemma DefaultIdIncreases(area: ControlId, widget: ControlId)
    requires area < 0x1_0000_0000_0000 && widget < 0xffff
    ensures DefaultId(area, widget) < DefaultId(area, widget + 1)
  {
    DefaultIdValue(area, widget);
    DefaultIdValue(area, widget + 1);
  }

  /** uint64 increment. */
  function Inc(x: ControlId): ControlId
  {
    (x + 1) % Two64
  }

  // ---------------------------------------------------------------------
  // Key edges (key_state_transition)

  /** One key of the keyboard state: held down now, and pressed this frame. */
  datatype KeyState = KeyState(down: bool, active: bool)

  /** key_state_transition: the key is active only on the frame it goes down. */
  function KeyTransition(k: KeyState, keyDown: bool): (r: KeyState)
    ensures r.down == keyDown
    ensures r.active <==> keyDown && !k.down
  {
    KeyState(keyDown, keyDown && !k.down)
  }

  /** A key held over two frames is active on at most the first of them. */
  lemma HeldKeyFiresOnce(k: KeyState, keyDown: bool)
    ensures !KeyTransition(KeyTransition(k, keyDown), keyDown).active
  {
  }

  /** Holding a key and then releasing it and pressing it again fires twice. */
  lemma RepressFiresAgain(k: KeyState)
    ensures KeyTransition(KeyTransition(KeyTransition(k, false), true), true).down
    ensures KeyTransition(KeyTransition(k, false), true).active
  {
  }

  // ---------------------------------------------------------------------
  // The context state the control logic reads and writes

  /** The left mouse button: held, and pressed or released this frame. */
  datatype MouseButton = MouseButton(down: bool, pressed: bool, released: bool)

  /** input_mouse_update derives pressed and released from the previous and
      the current down state, so they never hold together with the wrong one. */
  predicate MouseOk(b: MouseButton)
  {
    !(b.released && (b.down || b.pressed)) && (b.pressed ==> b.down)
  }

  /** The mouse part of xpl_imui_context: the left button and the scroll delta. */
  datatype Mouse = Mouse(left: MouseButton, scrollDelta: int)

  /** The keyboard part: the keys typed this frame and the followed keys. */
  datatype Keyboard = Keyboard(typed: seq<nat>,
    backspace: KeyState, cursorLeft: KeyState, cursorRight: KeyState, tab: KeyState,
    leftShift: KeyState, rightShift: KeyState, enter: KeyState, escape: KeyState,
    delete: KeyState)

  /** The controls part: the hot, active and keyboard-focused controls, the id
      counters and the scroll stack depth. */
  datatype Controls = Controls(
    activeId: ControlId, hotId: ControlId, hotToBeId: ControlId,
    keyboardActiveToBeId: ControlId, keyboardActiveId: ControlId,
    areaId: ControlId, widgetId: ControlId,
    isHot: bool, isActive: bool, wentActive: bool, scrollFrame: nat)

  datatype Ui = Ui(mouse: Mouse, keyboard: Keyboard, controls: Controls)

  /** input_clear: the per-frame mouse state and key presses are forgotten
      (the delete key's press is not). */
  function InputClear(u: Ui): (r: Ui)
  {
    Ui(Mouse(u.mouse.left.(pressed := false, released := false), 0),
       u.keyboard.(typed := [], backspace := u.keyboard.backspace.(active := false),
         cursorLeft := u.keyboard.cursorLeft.(active := false),
         cursorRight := u.keyboard.cursorRight.(active := false),
         enter := u.keyboard.enter.(active := false),
         escape := u.keyboard.escape.(active := false)),
       u.controls)
  }

  /** The two low bits of an int flags word; Euclidean division and remainder
      match the two's complement bits for negative words too. */
  predicate Bit0(flags: int) { flags % 2 == 1 }
  predicate Bit1(flags: int) { (flags / 2) % 2 == 1 }

  /** XPL_IMUI_BUTTON_DEFAULT fires on Enter, XPL_IMUI_BUTTON_CANCEL on Escape. */
  predicate Shortcut(k: Keyboard, flags: int)
  {
    (Bit0(flags) && k.enter.active) || (Bit1(flags) && k.escape.active)
  }

  /** The mouse-down half of control_logic_button: with no active control a
      hovered button becomes hot next frame, and a hot button under a held
      mouse button becomes active and takes the keyboard. */
  function Press(c: Controls, left: MouseButton, id: ControlId, isOver: bool): Controls
  {
    if c.activeId != ControlNone then c
    else
      var h := if isOver then c.(hotToBeId := id) else c;
      if h.hotId == id && left.down then h.(activeId := id, wentActive := true, keyboardActiveId := id)
      else h
  }

  /** The release half: an active button stays hot while hovered, and on release
      it clicks if it is hot, then clears active and the per-frame input. */
  function Release(u: Ui, id: ControlId, isOver: bool): (Ui, bool)
  {
    if u.controls.activeId != id then (u, false)
    else
      var a := u.controls.(isActive := true);
      var b := if isOver then a.(hotToBeId := id) else a;
      if u.mouse.left.released then (InputClear(u.(controls := b.(activeId := ControlNone))), b.hotId == id)
      else (u.(controls := b), false)
  }

  /** control_logic_button: the new context and whether the button fired. */
  function Button(u: Ui, id: ControlId, isOver: bool, flags: int): (Ui, bool)
  {
    var p := u.(controls := Press(u.controls, u.mouse.left, id, isOver));
    var (q, click) := Release(p, id, isOver);
    (if q.controls.hotId == id then q.(controls := q.controls.(isHot := true)) else q,
     Shortcut(u.keyboard, flags) || click)
  }

  /** A button fires by mouse only when the mouse is released over it while it
      is hot and active (it was active already, or became active this call). */
  lemma ButtonClickNeedsRelease(u: Ui, id: ControlId, isOver: bool, flags: int)
    requires Button(u, id, isOver, flags).1 && !Shortcut(u.keyboard, flags)
    ensures u.mouse.left.released && u.controls.hotId == id
    ensures u.controls.activeId == id || (u.controls.activeId == ControlNone && u.mouse.left.down)
  {
  }

  /** And it does fire then. */
  lemma ButtonClicksOnRelease(u: Ui, id: ControlId, isOver: bool, flags: int)
    requires u.controls.activeId == id && u.controls.hotId == id && u.mouse.left.released
    ensures Button(u, id, isOver, flags).1
  {
  }

  /** Release clears the active control and the frame's input. */
  lemma ButtonReleaseClearsActive(u: Ui, id: ControlId, isOver: bool, flags: int)
    requires id != ControlNone && u.controls.activeId == id && u.mouse.left.released
    ensures var r := Button(u, id, isOver, flags).0;
      r.controls.activeId == ControlNone && !r.mouse.left.released && r.keyboard.typed == []
      && !r.keyboard.enter.active && !r.keyboard.escape.active && !r.keyboard.backspace.active
  {
  }

  /** A button never takes over from another active control; then only its
      keyboard shortcut can fire it. */
  lemma ButtonRespectsOtherActive(u: Ui, id: ControlId, isOver: bool, flags: int)
    requires u.controls.activeId != ControlNone && u.controls.activeId != id
    ensures Button(u, id, isOver, flags).0.controls.activeId == u.controls.activeId
    ensures Button(u, id, isOver, flags).1 == Shortcut(u.keyboard, flags)
  {
  }

  /** A hot button pressed while nothing is active becomes active, records that
      it went active and takes the keyboard. */
  lemma ButtonTakesActive(u: Ui, id: ControlId, isOver: bool, flags: int)
    requires MouseOk(u.mouse.left) && id != ControlNone
    requires u.controls.activeId == ControlNone && u.controls.hotId == id && u.mouse.left.down
    ensures var r := Button(u, id, isOver, flags).0.controls;
      r.activeId == id && r.wentActive && r.keyboardActiveId == id && r.isActive && r.isHot
  {
  }

  /** Hovering makes a button hot only from the next frame: hot_to_be_id is set
      and hot_id is left alone. */
  lemma ButtonHoverIsDeferred(u: Ui, id: ControlId, flags: int)
    requires u.controls.activeId == ControlNone || u.controls.activeId == id
    ensures Button(u, id, true, flags).0.controls.hotToBeId == id
    ensures Button(u, id, true, flags).0.controls.hotId == u.controls.hotId
  {
  }

  // ---------------------------------------------------------------------
  // Textfield editing (control_logic_textfield)

  /** A textfield's text (the C string before its NUL) and its cursor. */
  datatype Field = Field(text: seq<char>, cursor: int)

  /** The key presses the textfield reacts to after the typed characters. */
  datatype Edits = Edits(left: bool, right: bool, backspace: bool, delete: bool)

  /** The field holds at most max_len characters, none of them NUL, and the
      cursor lies within the text. */
  predicate FieldOk(f: Field, maxLen: nat)
  {
    |f.text| <= maxLen && 0 <= f.cursor <= |f.text| && Nul !in f.text
  }

  function Min(a: int, b: int): int { if a < b then a else b }
  function Max(a: int, b: int): int { if a < b then b else a }

  /** One typed key, corrected: the cursor is first clamped to the text; a
      character key, by the corrected Input.IsCharacter a key below
      XPL_KEY_SPECIAL, is inserted at the cursor unless the field is full. The
      flag says whether the text changed. */
  function TypeKey(f: Field, maxLen: nat, key: nat): (Field, bool)
  {
    var c := Min(f.cursor, |f.text|);
    if !Input.IsCharacter(key) || |f.text| == maxLen || c < 0 then (Field(f.text, c), false)
    else (Field(f.text[..c] + [(key % 256) as char] + f.text[c..], c + 1), true)
  }

  /** The same step as written: the key is tested with the as-written
      xpl_input_is_character (a key above XPL_KEY_SPECIAL), so printable keys
      are ignored and a named key types its low byte; an insert before the end
      builds the new text in a scratch array of max_len chars, which the new
      text and its NUL overflow when the field already holds max_len - 1
      characters. None stands for that out-of-bounds write. A low byte of 0
      ends the C string where it lands, and the strcat of an insert puts the
      rest back, so the text stays as it was, only the cursor moves on, and
      the scratch array is filled no further than the text and its NUL. */
  function TypeKeyAsWritten(f: Field, maxLen: nat, key: nat): Option<(Field, bool)>
  {
    var c := Min(f.cursor, |f.text|);
    if !Input.IsCharacterAsWritten(key) || |f.text| == maxLen || c < 0 then Some((Field(f.text, c), false))
    else if key % 256 == 0 then Some((Field(f.text, c + 1), true))
    else if c < |f.text| && |f.text| + 2 > maxLen then Option.None
    else Some((Field(f.text[..c] + [(key % 256) as char] + f.text[c..], c + 1), true))
  }

  /** All typed keys in order; the flag says whether any was inserted. */
  function TypeKeys(f: Field, maxLen: nat, typed: seq<nat>): (Field, bool)
    decreases |typed|
  {
    if typed == [] then (f, false)
    else
      var (g, b) := TypeKey(f, maxLen, typed[0]);
      var (h, b') := TypeKeys(g, maxLen, typed[1..]);
      (h, b || b')
  }

  /** Cursor left stops at 0. */
  function MoveLeft(f: Field): Field
  {
    f.(cursor := Max(f.cursor - 1, 0))
  }

  /** Cursor right stops at the end of the text. */
  function MoveRight(f: Field): Field
  {
    f.(cursor := Min(f.cursor + 1, |f.text|))
  }

  /** Backspace as written: at the end of the text it cuts the last character,
      also when there is none, which writes before the buffer (None). */
  function BackspaceAsWritten(f: Field): Option<Field>
    requires 0 <= f.cursor <= |f.text|
  {
    if f.cursor == |f.text| then
      if f.cursor == 0 then Option.None
      else Some(Field(f.text[..f.cursor - 1], f.cursor - 1))
    else if f.cursor > 0 then Some(Field(f.text[..f.cursor - 1] + f.text[f.cursor..], f.cursor - 1))
    else Some(f)
  }

  /** Backspace with the empty field left alone. */
  function Backspace(f: Field): Field
    requires 0 <= f.cursor <= |f.text|
  {
    if f.cursor == |f.text| && f.cursor > 0 then Field(f.text[..f.cursor - 1], f.cursor - 1)
    else if 0 < f.cursor < |f.text| then Field(f.text[..f.cursor - 1] + f.text[f.cursor..], f.cursor - 1)
    else f
  }

  /** Delete removes the character under the cursor, if there is one. */
  function Delete(f: Field): Field
  {
    if 0 <= f.cursor < |f.text| then Field(f.text[..f.cursor] + f.text[f.cursor + 1..], f.cursor)
    else f
  }

  /** control_logic_textfield: typed characters first, then cursor left, cursor
      right, backspace and delete; changed when a character went in or
      backspace or delete was pressed. */
  function Textfield(f: Field, maxLen: nat, typed: seq<nat>, e: Edits): (Field, bool)
    requires FieldOk(f, maxLen) && 0 !in typed
  {
    TypeKeysOk(f, maxLen, typed);
    var (f1, typedIn) := TypeKeys(f, maxLen, typed);
    var f2 := if e.left then MoveLeft(f1) else f1;
    var f3 := if e.right then MoveRight(f2) else f2;
    var f4 := if e.backspace then Backspace(f3) else f3;
    var f5 := if e.delete then Delete(f4) else f4;
    (f5, typedIn || e.backspace || e.delete)
  }

  /** A character typed into a field with room goes in at the cursor, and the
      cursor moves past it. */
  lemma TypeKeyInserts(f: Field, maxLen: nat, key: nat)
    requires FieldOk(f, maxLen) && |f.text| < maxLen && Input.IsCharacter(key)
    ensures var (g, changed) := TypeKey(f, maxLen, key);
      changed && g.cursor == f.cursor + 1 && |g.text| == |f.text| + 1
      && g.text[f.cursor] == key as char
      && g.text[..f.cursor] == f.text[..f.cursor] && g.text[f.cursor + 1..] == f.text[f.cursor..]
  {
    var g := TypeKey(f, maxLen, key).0;
    assert g.text[f.cursor + 1..] == f.text[f.cursor..];
  }

  /** A full field ignores every typed key. */
  lemma {:induction false} FullFieldIgnoresTyping(f: Field, maxLen: nat, typed: seq<nat>)
    requires FieldOk(f, maxLen) && |f.text| == maxLen
    ensures TypeKeys(f, maxLen, typed) == (f, false)
  {
    if typed != [] {
      FullFieldIgnoresTyping(TypeKey(f, maxLen, typed[0]).0, maxLen, typed[1..]);
    }
  }

  /** One typed key keeps the text within max_len, free of NUL and the cursor
      in it. */
  lemma TypeKeyOk(f: Field, maxLen: nat, key: nat)
    requires FieldOk(f, maxLen) && key != 0
    ensures FieldOk(TypeKey(f, maxLen, key).0, maxLen)
  {
    var g := TypeKey(f, maxLen, key).0;
    if Input.IsCharacter(key) && |f.text| < maxLen {
      assert g.text == f.text[..f.cursor] + [key as char] + f.text[f.cursor..];
      assert key as char != Nul;
      assert forall x :: x in g.text ==> x in f.text || x == key as char;
    }
  }

  /** So do all typed keys. */
  lemma {:induction false} TypeKeysOk(f: Field, maxLen: nat, typed: seq<nat>)
    requires FieldOk(f, maxLen) && 0 !in typed
    ensures FieldOk(TypeKeys(f, maxLen, typed).0, maxLen)
    decreases |typed|
  {
    if typed != [] {
      TypeKeyOk(f, maxLen, typed[0]);
      assert 0 !in typed[1..];
      TypeKeysOk(TypeKey(f, maxLen, typed[0]).0, maxLen, typed[1..]);
    }
  }

  /** Backspace and delete keep a field well formed. */
  lemma RemovalsOk(f: Field, maxLen: nat)
    requires FieldOk(f, maxLen)
    ensures FieldOk(Backspace(f), maxLen) && FieldOk(Delete(f), maxLen)
  {
    if 0 < f.cursor {
      assert forall x :: x in Backspace(f).text ==> x in f.text;
    }
    if f.cursor < |f.text| {
      assert forall x :: x in Delete(f).text ==> x in f.text;
    }
  }

  /** The whole edit keeps the field well formed. */
  lemma TextfieldOk(f: Field, maxLen: nat, typed: seq<nat>, e: Edits)
    requires FieldOk(f, maxLen) && 0 !in typed
    ensures FieldOk(Textfield(f, maxLen, typed, e).0, maxLen)
  {
    TypeKeysOk(f, maxLen, typed);
    var f1 := TypeKeys(f, maxLen, typed).0;
    var f2 := if e.left then MoveLeft(f1) else f1;
    var f3 := if e.right then MoveRight(f2) else f2;
    RemovalsOk(f3, maxLen);
    var f4 := if e.backspace then Backspace(f3) else f3;
    RemovalsOk(f4, maxLen);
  }

  /** Cursor movement never leaves the text. */
  lemma MovesClamp(f: Field)
    requires 0 <= f.cursor <= |f.text|
    ensures 0 <= MoveLeft(f).cursor <= |f.text| && MoveLeft(f).cursor == if f.cursor > 0 then f.cursor - 1 else 0
    ensures 0 <= MoveRight(f).cursor <= |f.text|
    ensures MoveRight(f).cursor == if f.cursor < |f.text| then f.cursor + 1 else |f.text|
  {
  }

  /** Delete removes exactly the character under the cursor when there is one
      and otherwise changes nothing. */
  lemma DeleteAtCursor(f: Field)
    requires 0 <= f.cursor <= |f.text|
    ensures f.cursor < |f.text| ==>
      |Delete(f).text| == |f.text| - 1 && Delete(f).cursor == f.cursor
      && Delete(f).text == f.text[..f.cursor] + f.text[f.cursor + 1..]
    ensures f.cursor == |f.text| ==> Delete(f) == f
  {
  }

  /** Backspace at the end of a non-empty text removes its last character. */
  lemma BackspaceAtEnd(f: Field)
    requires 0 < f.cursor == |f.text|
    ensures Backspace(f).text == f.text[..|f.text| - 1] && Backspace(f).cursor == f.cursor - 1
  {
  }

  /** Backspace after typing a character takes it out again. */
  lemma BackspaceUndoesTyping(f: Field, maxLen: nat, key: nat)
    requires FieldOk(f, maxLen) && |f.text| < maxLen && Input.IsCharacter(key)
    ensures Backspace(TypeKey(f, maxLen, key).0) == f
  {
    var g := TypeKey(f, maxLen, key).0;
    var c := f.cursor;
    assert g.text[..c] == f.text[..c];
    assert g.text[c + 1..] == f.text[c..];
    assert g.text[..c] + g.text[c + 1..] == f.text;
    if c + 1 == |g.text| {
      assert g.text[..|g.text| - 1] == f.text;
    }
  }

  /** Cursor left then delete after typing a character also takes it out. */
  lemma DeleteUndoesTyping(f: Field, maxLen: nat, key: nat)
    requires FieldOk(f, maxLen) && |f.text| < maxLen && Input.IsCharacter(key)
    ensures Delete(MoveLeft(TypeKey(f, maxLen, key).0)) == f
  {
    var g := TypeKey(f, maxLen, key).0;
    var c := f.cursor;
    assert g.text[..c] == f.text[..c];
    assert g.text[c + 1..] == f.text[c..];
    assert g.text[..c] + g.text[c + 1..] == f.text;
  }

  /** Backspace on an empty field: as written it writes before the buffer;
      corrected, it leaves the field alone. */
  lemma BackspaceOnEmptyField()
    ensures BackspaceAsWritten(Field([], 0)) == Option.None
    ensures Backspace(Field([], 0)) == Field([], 0)
  {
  }

  /** Typing before "a" in a field of max_len 2. As written the letter 'b'
      itself is ignored, and the key XPL_KEY_SPECIAL + 'b', which passes the
      as-written test and types its low byte 'b', overflows the scratch array;
      corrected, typing 'b' gives "ba". */
  lemma InsertNearFullOverruns()
    ensures TypeKeyAsWritten(Field("a", 0), 2, 'b' as nat) == Some((Field("a", 0), false))
    ensures TypeKeyAsWritten(Field("a", 0), 2, Input.KeySpecial + 'b' as nat) == Option.None
    ensures TypeKey(Field("a", 0), 2, 'b' as nat) == (Field("ba", 1), true)
  {
    assert Input.IsCharacter('b' as nat);
    assert Field("a", 0).text[..0] + ['b'] + Field("a", 0).text[0..] == "ba";
  }

  /** Outside that case the step as written ignores every key the corrected
      test accepts, and types a key the as-written test accepts, whose low
      byte is not 0, exactly as the corrected step types that low byte. */
  lemma TypeKeyAsWrittenAgrees(f: Field, maxLen: nat, key: nat)
    requires FieldOk(f, maxLen)
    requires f.cursor == |f.text| || |f.text| + 2 <= maxLen
    ensures Input.IsCharacterAsWritten(key) && key % 256 != 0 ==>
      TypeKeyAsWritten(f, maxLen, key) == Some(TypeKey(f, maxLen, key % 256))
    ensures !Input.IsCharacterAsWritten(key) ==> TypeKeyAsWritten(f, maxLen, key) == Some((f, false))
  {
  }

  /** A key above XPL_KEY_SPECIAL with a low byte of 0 (512, 0x4E00) leaves the
      text as it was and moves the cursor on, past the end when appending; it
      never overflows the scratch array, whatever the room. */
  lemma ZeroByteKeyKeepsText(f: Field, maxLen: nat, key: nat)
    requires FieldOk(f, maxLen) && |f.text| < maxLen
    requires Input.IsCharacterAsWritten(key) && key % 256 == 0
    ensures TypeKeyAsWritten(f, maxLen, key) == Some((Field(f.text, f.cursor + 1), true))
    ensures f.cursor == |f.text| ==> !FieldOk(TypeKeyAsWritten(f, maxLen, key).value.0, maxLen)
  {
  }

  /** And so do the two backspaces on a non-empty field. */
  lemma BackspaceAsWrittenAgrees(f: Field)
    requires 0 <= f.cursor <= |f.text| && |f.text| > 0
    ensures BackspaceAsWritten(f) == Some(Backspace(f))
  {
  }

  // ---------------------------------------------------------------------
  // The queue of typed characters (input_handle_char)

  /** input_handle_char: a character joins the queue unless it already holds
      MAX_WAITING_KEYS; the flag says whether it was taken. */
  function Enqueue(q: seq<int>, c: int): (seq<int>, bool)
  {
    if |q| >= MaxWaitingKeys then (q, false) else (q + [c], true)
  }

  /** The queue never grows past MAX_WAITING_KEYS, accepts exactly when it has
      room, and keeps the order of the accepted characters. */
  lemma EnqueueBounded(q: seq<int>, c: int)
    requires |q| <= MaxWaitingKeys
    ensures var (r, taken) := Enqueue(q, c);
      |r| <= MaxWaitingKeys && (taken <==> |q| < MaxWaitingKeys)
      && (taken ==> r[..|q|] == q && r[|q|] == c && |r| == |q| + 1) && (!taken ==> r == q)
  {
  }

  /** keyboard.typed holds 8 keys; the flush writes a 0 terminator after the
      queued keys. */
  const TypedSize: nat := 8

  /** The typed keys a textfield sees: the queue up to its first 0. */
  function Typed(q: seq<int>): (t: seq<nat>)
    ensures 0 !in t && |t| <= |q|
    ensures forall j :: 0 <= j < |t| ==> t[j] == q[j]
  {
    if q == [] || q[0] <= 0 then [] else [q[0] as nat] + Typed(q[1..])
  }

  /** input_keyboard_update's flush as written: with a keyboard focus the queue
      is copied into typed and terminated with a 0; with a full queue the
      terminator lands at typed[8], past the end of the array (None). */
  function FlushAsWritten(q: seq<int>, focus: ControlId, typed: seq<nat>): Option<seq<nat>>
  {
    if |q| > 0 && focus != ControlNone then
      if |q| >= TypedSize then Option.None else Some(Typed(q))
    else Some(typed)
  }

  /** The flush with room for a full queue and its terminator. */
  function Flush(q: seq<int>, focus: ControlId, typed: seq<nat>): seq<nat>
  {
    if |q| > 0 && focus != ControlNone then Typed(q) else typed
  }

  /** Eight queued keys under a keyboard focus: as written the terminator
      overruns typed; corrected, the textfield sees all eight. */
  lemma FullQueueOverrunsTyped()
    ensures FlushAsWritten([97, 97, 97, 97, 97, 97, 97, 97], 1, []) == Option.None
    ensures |Flush([97, 97, 97, 97, 97, 97, 97, 97], 1, [])| == 8
  {
    var q := [97, 97, 97, 97, 97, 97, 97, 97];
    assert q[1..][1..][1..][1..][1..][1..][1..][1..] == [];
  }

  /** Below a full queue the two flushes agree, and the textfield then sees the
      queued keys in order up to the first 0. */
  lemma FlushAgrees(q: seq<int>, focus: ControlId, typed: seq<nat>)
    requires |q| < TypedSize
    ensures FlushAsWritten(q, focus, typed) == Some(Flush(q, focus, typed))
    ensures |q| > 0 && focus != ControlNone && (forall j :: 0 <= j < |q| ==> q[j] > 0) ==>
      Flush(q, focus, typed) == q
  {
    if |q| > 0 && focus != ControlNone && (forall j :: 0 <= j < |q| ==> q[j] > 0) {
      AllPositiveTyped(q);
    }
  }

  lemma {:induction false} AllPositiveTyped(q: seq<int>)
    requires forall j :: 0 <= j < |q| ==> q[j] > 0
    ensures Typed(q) == q
  {
    if q != [] {
      AllPositiveTyped(q[1..]);
    }
  }

  /** Whether each key the context follows is held down this frame. */
  datatype KeyDowns = KeyDowns(backspace: bool, delete: bool, left: bool, right: bool,
    enter: bool, escape: bool, tab: bool, leftShift: bool, rightShift: bool)

  /** key_state_transition applied to every followed key, in
      input_keyboard_update's order. */
  function Keys(k: Keyboard, d: KeyDowns): Keyboard
  {
    k.(backspace := KeyTransition(k.backspace, d.backspace),
       delete := KeyTransition(k.delete, d.delete),
       cursorLeft := KeyTransition(k.cursorLeft, d.left),
       cursorRight := KeyTransition(k.cursorRight, d.right),
       enter := KeyTransition(k.enter, d.enter),
       escape := KeyTransition(k.escape, d.escape),
       tab := KeyTransition(k.tab, d.tab),
       leftShift := KeyTransition(k.leftShift, d.leftShift),
       rightShift := KeyTransition(k.rightShift, d.rightShift))
  }

  /** The key presses a textfield reacts to. */
  function EditsOf(k: Keyboard): Edits
  {
    Edits(k.cursorLeft.active, k.cursorRight.active, k.backspace.active, k.delete.active)
  }

  /** The tab handling of input_keyboard_update: Tab moves the keyboard target
      to the next control, shift-Tab to the previous one (or to control 1 when
      nothing has focus). control_id arithmetic wraps at 2^64. */
  function TabTarget(focus: ControlId, toBe: ControlId, tab: bool, shift: bool): ControlId
  {
    if !tab then toBe
    else if shift then (if focus == ControlNone then 1 else focus - 1)
    else Inc(focus)
  }

  /** Tab and shift-Tab are inverse moves of the keyboard target. */
  lemma TabBackAndForth(focus: ControlId, toBe: ControlId, toBe': ControlId)
    requires focus != ControlNone && Inc(focus) != ControlNone
    ensures TabTarget(TabTarget(focus, toBe, true, false), toBe', true, true) == focus
  {
  }

  datatype Option<T> = None | Some(value: T)
}

module ImuiObject {
  import opened Imui
  import Input

  /** `a` holds the C string `t`: its characters, then a NUL. */
  ghost predicate Holds(a: array<char>, t: seq<char>)
    reads a
  {
    |t| < a.Length && a[|t|] == Nul && forall j :: 0 <= j < |t| ==> a[j] == t[j]
  }

  /** strlen. */
  method StrLen(a: array<char>, ghost t: seq<char>) returns (n: nat)
    requires Holds(a, t) && Nul !in t
    ensures n == |t|
  {
    n := 0;
    while a[n] != Nul
      invariant n <= |t|
      decreases |t| - n
      invariant forall j :: 0 <= j < n ==> t[j] != Nul
    {
      assert t[n] != Nul;
      n := n + 1;
    }
  }

  /** The textfield's insert: the text from `at` on moves one cell right and
      the character goes in at `at`. */
  method InsertAt(a: array<char>, len: nat, at: nat, c: char, ghost t: seq<char>)
    requires Holds(a, t) && len == |t| && at <= len && len + 1 < a.Length
    modifies a
    ensures Holds(a, t[..at] + [c] + t[at..])
  {
    forall j | at <= j <= len {
      a[j + 1] := a[j];
    }
    a[at] := c;
  }

  /** The textfield's removal: the text after `at` moves one cell left. */
  method RemoveAt(a: array<char>, len: nat, at: nat, ghost t: seq<char>)
    requires Holds(a, t) && len == |t| && at < len
    modifies a
    ensures Holds(a, t[..at] + t[at + 1..])
  {
    forall j | at <= j < len {
      a[j] := a[j + 1];
    }
  }

  /** The queue of characters typed between frames (g_waiting_keys and
      g_waiting_key_count). */
  class WaitingKeys {
    const keys: array<int>
    var count: nat

    ghost predicate Valid()
      reads this
    {
      keys.Length == MaxWaitingKeys + 1 && count <= MaxWaitingKeys
    }

    ghost function Pending(): seq<int>
      reads this, keys
      requires Valid()
    {
      keys[..count]
    }

    constructor ()
      ensures Valid() && Pending() == [] && fresh(keys)
    {
      keys := new int[MaxWaitingKeys + 1];
      count := 0;
    }

    /** input_handle_char. */
    method HandleChar(c: int) returns (taken: bool)
      requires Valid()
      modifies this`count, keys
      ensures Valid() && (Pending(), taken) == Enqueue(old(Pending()), c)
    {
      if count >= MaxWaitingKeys {
        return false;
      }
      keys[count] := c;
      count := count + 1;
      assert Pending() == old(Pending()) + [c];
      return true;
    }
  }

  /** The state of xpl_imui_context that the control logic reads and writes. */
  class Context {
    var mouse: Mouse
    var keyboard: Keyboard
    var controls: Controls

    ghost predicate Valid()
      reads this
    {
      controls.scrollFrame < ScrollStackMax && 0 !in keyboard.typed
    }

    ghost function Ui(): Imui.Ui
      reads this
    {
      Imui.Ui(mouse, keyboard, controls)
    }

    /** A context as xpl_imui_context_new leaves it: everything zero. */
    constructor ()
      ensures Valid() && controls.scrollFrame == 0 && controls.activeId == ControlNone
      ensures controls.hotId == ControlNone && controls.keyboardActiveId == ControlNone
      ensures keyboard.typed == []
    {
      var up := KeyState(false, false);
      mouse := Mouse(MouseButton(false, false, false), 0);
      keyboard := Keyboard([], up, up, up, up, up, up, up, up, up);
      controls := Controls(ControlNone, ControlNone, ControlNone, ControlNone, ControlNone,
        0, 0, false, false, false, 0);
    }

    /** input_clear. */
    method InputClear()
      modifies this`mouse, this`keyboard
      ensures Ui() == Imui.InputClear(old(Ui()))
    {
      mouse := Mouse(mouse.left.(pressed := false, released := false), 0);
      keyboard := keyboard.(typed := [], backspace := keyboard.backspace.(active := false),
        cursorLeft := keyboard.cursorLeft.(active := false),
        cursorRight := keyboard.cursorRight.(active := false),
        enter := keyboard.enter.(active := false),
        escape := keyboard.escape.(active := false));
    }

    /** control_logic_button. */
    method ControlLogicButton(id: ControlId, isOver: bool, flags: int) returns (result: bool)
      requires Valid()
      modifies this`mouse, this`keyboard, this`controls
      ensures Valid() && (Ui(), result) == Button(old(Ui()), id, isOver, flags)
    {
      ButtonPress(id, isOver);
      result := false;
      if (Bit0(flags) && keyboard.enter.active) || (Bit1(flags) && keyboard.escape.active) {
        result := true;
      }
      var click := ButtonRelease(id, isOver);
      if click {
        result := true;
      }
      if controls.hotId == id {
        controls := controls.(isHot := true);
      }
    }

    /** The mouse-down half of control_logic_button. */
    method ButtonPress(id: ControlId, isOver: bool)
      modifies this`controls
      ensures controls == Press(old(controls), mouse.left, id, isOver)
    {
      if controls.activeId == ControlNone {
        if isOver {
          controls := controls.(hotToBeId := id);
        }
        if controls.hotId == id && mouse.left.down {
          controls := controls.(activeId := id, wentActive := true, keyboardActiveId := id);
        }
      }
    }

    /** The release half of control_logic_button. */
    method ButtonRelease(id: ControlId, isOver: bool) returns (click: bool)
      modifies this`mouse, this`keyboard, this`controls
      ensures (Ui(), click) == Release(old(Ui()), id, isOver)
    {
      click := false;
      if controls.activeId == id {
        controls := controls.(isActive := true);
        if isOver {
          controls := controls.(hotToBeId := id);
        }
        if mouse.left.released {
          if controls.hotId == id {
            click := true;
          }
          controls := controls.(activeId := ControlNone);
          InputClear();
        }
      }
    }

    /** control_gen_default_id. */
    method GenDefaultId() returns (id: ControlId)
      modifies this`controls
      ensures controls == old(controls).(widgetId := Inc(old(controls.widgetId)))
      ensures id == DefaultId(controls.areaId, controls.widgetId)
    {
      controls := controls.(widgetId := Inc(controls.widgetId));
      id := DefaultId(controls.areaId, controls.widgetId);
    }

    /** control_push_scroll: the caller must leave room on the stack. */
    method PushScroll()
      requires Valid() && controls.scrollFrame + 1 < ScrollStackMax
      modifies this`controls
      ensures Valid() && controls == old(controls).(scrollFrame := old(controls.scrollFrame) + 1)
    {
      controls := controls.(scrollFrame := controls.scrollFrame + 1);
    }

    /** control_pop_scroll: the caller must have pushed. */
    method PopScroll()
      requires Valid() && controls.scrollFrame > 0
      modifies this`controls
      ensures Valid() && controls == old(controls).(scrollFrame := old(controls.scrollFrame) - 1)
    {
      controls := controls.(scrollFrame := controls.scrollFrame - 1);
    }

    /** input_keyboard_update: every key goes through key_state_transition,
        the waiting characters reach `typed` when a control has the keyboard,
        the queue empties, and Tab moves the keyboard target. */
    method KeyboardUpdate(down: KeyDowns, waiting: WaitingKeys)
      requires Valid() && waiting.Valid()
      modifies this`keyboard, this`controls, waiting`count
      ensures Valid() && waiting.Valid() && waiting.Pending() == []
      ensures keyboard == Keys(old(keyboard), down).(typed :=
        Flush(old(waiting.Pending()), controls.keyboardActiveId, old(keyboard.typed)))
      ensures controls == old(controls).(keyboardActiveToBeId := TabTarget(controls.keyboardActiveId,
        old(controls.keyboardActiveToBeId), keyboard.tab.active,
        keyboard.leftShift.down || keyboard.rightShift.down))
    {
      keyboard := Keys(keyboard, down);
      if waiting.count > 0 && controls.keyboardActiveId != ControlNone {
        keyboard := keyboard.(typed := Typed(waiting.keys[..waiting.count]));
      }
      waiting.count := 0;
      TabUpdate();
    }

    /** The Tab handling at the end of input_keyboard_update. */
    method TabUpdate()
      modifies this`controls
      ensures controls == old(controls).(keyboardActiveToBeId := TabTarget(controls.keyboardActiveId,
        old(controls.keyboardActiveToBeId), keyboard.tab.active,
        keyboard.leftShift.down || keyboard.rightShift.down))
    {
      if keyboard.tab.active {
        if keyboard.leftShift.down || keyboard.rightShift.down {
          if controls.keyboardActiveId == ControlNone {
            controls := controls.(keyboardActiveToBeId := 1);
          } else {
            controls := controls.(keyboardActiveToBeId := controls.keyboardActiveId - 1);
          }
        } else {
          controls := controls.(keyboardActiveToBeId := Inc(controls.keyboardActiveId));
        }
      }
    }

    /** control_logic_textfield on the C string held in `buf`, with room for
        max_len characters and a NUL: the field after the typed keys and the
        frame's key presses, and whether it changed. */
    method ControlLogicTextfield(buf: array<char>, maxLen: nat, cursorPos: int, ghost text: seq<char>)
      returns (changed: bool, cursor: int)
      requires Valid() && Holds(buf, text) && maxLen < buf.Length
      requires FieldOk(Field(text, cursorPos), maxLen)
      modifies buf
      ensures var (f, ch) := Textfield(Field(text, cursorPos), maxLen, keyboard.typed, EditsOf(keyboard));
        Holds(buf, f.text) && cursor == f.cursor && changed == ch
    {
      ghost var f0 := Field(text, cursorPos);
      TypeKeysOk(f0, maxLen, keyboard.typed);
      changed, cursor := TypeInto(buf, maxLen, cursorPos, keyboard.typed, text);
      ghost var f := TypeKeys(f0, maxLen, keyboard.typed).0;
      if keyboard.cursorLeft.active {
        cursor := Max(cursor - 1, 0);
        f := MoveLeft(f);
      }
      if keyboard.cursorRight.active {
        var len := StrLen(buf, f.text);
        cursor := Min(cursor + 1, len);
        f := MoveRight(f);
      }
      RemovalsOk(f, maxLen);
      if keyboard.backspace.active {
        cursor := BackspaceIn(buf, cursor, f);
        f := Backspace(f);
        changed := true;
      }
      if keyboard.delete.active {
        DeleteIn(buf, cursor, f);
        f := Delete(f);
        changed := true;
      }
    }
  }

  /** The loop of control_logic_textfield over the typed keys. */
  method TypeInto(buf: array<char>, maxLen: nat, cursorPos: int, typed: seq<nat>, ghost text: seq<char>)
    returns (changed: bool, cursor: int)
    requires Holds(buf, text) && maxLen < buf.Length && 0 !in typed
    requires FieldOk(Field(text, cursorPos), maxLen)
    modifies buf
    ensures var (f, ch) := TypeKeys(Field(text, cursorPos), maxLen, typed);
      Holds(buf, f.text) && cursor == f.cursor && changed == ch
  {
    ghost var start := Field(text, cursorPos);
    ghost var f := start;
    changed := false;
    cursor := cursorPos;
    var i := 0;
    while i < |typed|
      invariant i <= |typed| && Holds(buf, f.text) && FieldOk(f, maxLen) && cursor == f.cursor
      invariant TypeKeys(start, maxLen, typed) ==
        (TypeKeys(f, maxLen, typed[i..]).0, changed || TypeKeys(f, maxLen, typed[i..]).1)
    {
      assert typed[i..][0] == typed[i] && typed[i..][1..] == typed[i + 1..];
      TypeKeyOk(f, maxLen, typed[i]);
      ghost var g := TypeKey(f, maxLen, typed[i]).0;
      var len := StrLen(buf, f.text);
      cursor := Min(cursor, len);
      if Input.IsCharacter(typed[i]) && len != maxLen {
        var c := (typed[i] % 256) as char;
        if cursor == len {
          buf[cursor] := c;
          cursor := cursor + 1;
          buf[cursor] := Nul;
          assert g.text == f.text + [c];
        } else {
          InsertAt(buf, len, cursor, c, f.text);
          cursor := cursor + 1;
        }
        changed := true;
      }
      f := g;
      i := i + 1;
    }
    assert typed[i..] == [];
  }

  /** The backspace step of control_logic_textfield. */
  method BackspaceIn(buf: array<char>, cursorPos: int, ghost f: Field) returns (cursor: int)
    requires Holds(buf, f.text) && Nul !in f.text && cursorPos == f.cursor && 0 <= f.cursor <= |f.text|
    modifies buf
    ensures Holds(buf, Backspace(f).text) && cursor == Backspace(f).cursor
  {
    cursor := cursorPos;
    var len := StrLen(buf, f.text);
    if cursor == len && cursor > 0 {
      buf[cursor - 1] := Nul;
      cursor := cursor - 1;
    } else if 0 < cursor < len {
      RemoveAt(buf, len, cursor - 1, f.text);
      cursor := cursor - 1;
    }
  }

  /** The delete step of control_logic_textfield. */
  method DeleteIn(buf: array<char>, cursor: int, ghost f: Field)
    requires Holds(buf, f.text) && Nul !in f.text && cursor == f.cursor
    modifies buf
    ensures Holds(buf, Delete(f).text)
  {
    var len := StrLen(buf, f.text);
    if 0 <= cursor < len {
      RemoveAt(buf, len, cursor, f.text);
    }
  }
}

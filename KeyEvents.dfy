/**
  The key-event classifier of the snippets manager: it turns a raw key-down event
  (a hardware key code and four modifier flags) into a key name through the `chars`
  table and, for printable keys, into the text the active keyboard layout produces.
  Everything here is a pure lookup.
*/
module KeyEvents {

  import opened Wrappers

  /** A raw key-down event as the input hook delivers it. */
  datatype KeyEvent = KeyEvent(keycode: int, shiftKey: bool, altKey: bool, ctrlKey: bool, metaKey: bool)

  /**
    One entry of the native keyboard map: the text the key produces on each of its
    four layers. An empty string stands both for an empty entry and for a missing
    one: the engine treats both as "produces nothing".
  */
  datatype KeyMapping = KeyMapping(value: string, withShift: string, withAltGr: string, withShiftAltGr: string)

  /** The two lookup tables: key code to key name, and key name to its layers. */
  datatype Layout = Layout(chars: map<int, string>, keymap: map<string, KeyMapping>)

  const KeyBackspace: string := "Backspace"
  const KeyTab: string := "Tab"
  const KeyArrows: seq<string> := ["ArrowUp", "ArrowDown", "ArrowLeft", "ArrowRight"]

  /** The name of a key code, or None when the `chars` table does not know it. */
  function CharName(chars: map<int, string>, keycode: int): (r: Option<string>)
    ensures r.Some? <==> keycode in chars
    ensures r.Some? ==> r.value == chars[keycode]
  {
    if keycode in chars then Some(chars[keycode]) else None
  }

  /** True when the key code names the Backspace key, whatever modifiers are held. */
  predicate IsBackspace(chars: map<int, string>, keycode: int)
  {
    CharName(chars, keycode) == Some(KeyBackspace)
  }

  /** Tab, any arrow key, and Backspace with Alt held invalidate the buffer. */
  predicate ShouldResetBuffer(chars: map<int, string>, e: KeyEvent)
  {
    var pressed := CharName(chars, e.keycode);
    (pressed == Some(KeyBackspace) && e.altKey)
    || pressed == Some(KeyTab)
    || (pressed.Some? && pressed.value in KeyArrows)
  }

  /** The layer of a keymap entry that a modifier combination selects, if any. */
  datatype Layer = Base | Shifted | AltGr | ShiftedAltGr

  /**
    Shift and Alt together select the Shift+AltGr layer, Shift alone the shifted
    layer, Alt alone the AltGr layer; with none of the four modifiers held the base
    layer is used, and Ctrl or Meta without Shift or Alt select nothing.
  */
  function LayerOf(e: KeyEvent): (r: Option<Layer>)
    ensures r == Some(ShiftedAltGr) <==> e.shiftKey && e.altKey
    ensures r == Some(Shifted) <==> e.shiftKey && !e.altKey
    ensures r == Some(AltGr) <==> !e.shiftKey && e.altKey
    ensures r == Some(Base) <==> !e.shiftKey && !e.altKey && !e.ctrlKey && !e.metaKey
    ensures r == None <==> !e.shiftKey && !e.altKey && (e.ctrlKey || e.metaKey)
  {
    if e.shiftKey && e.altKey then Some(ShiftedAltGr)
    else if e.shiftKey then Some(Shifted)
    else if e.altKey then Some(AltGr)
    else if !e.ctrlKey && !e.metaKey then Some(Base)
    else None
  }

  function Field(m: KeyMapping, layer: Layer): string
  {
    match layer
    case Base => m.value
    case Shifted => m.withShift
    case AltGr => m.withAltGr
    case ShiftedAltGr => m.withShiftAltGr
  }

  /**
    The text a key-down event types, or None when it types nothing: an unknown key
    code, an empty key name, a name the keymap does not hold, a Ctrl/Meta chord
    without Shift or Alt, or an empty layer all count as "not printable".
  */
  function EventToUnicode(layout: Layout, e: KeyEvent): (r: Option<string>)
    ensures r.Some? ==> r.value != []
    ensures r.Some? ==> e.keycode in layout.chars && layout.chars[e.keycode] in layout.keymap
    ensures (e.keycode !in layout.chars || layout.chars[e.keycode] == [] || layout.chars[e.keycode] !in layout.keymap) ==> r == None
    ensures !e.shiftKey && !e.altKey && (e.ctrlKey || e.metaKey) ==> r == None
    ensures e.keycode in layout.chars && layout.chars[e.keycode] != [] && layout.chars[e.keycode] in layout.keymap ==>
      var m := layout.keymap[layout.chars[e.keycode]];
      var text :=
        if e.shiftKey && e.altKey then m.withShiftAltGr
        else if e.shiftKey then m.withShift
        else if e.altKey then m.withAltGr
        else if !e.ctrlKey && !e.metaKey then m.value
        else [];
      r == (if text == [] then None else Some(text))
  {
    var name := CharName(layout.chars, e.keycode);
    if name.None? || name.value == [] || name.value !in layout.keymap then None
    else
      var layer := LayerOf(e);
      if layer.None? then None
      else
        var text := Field(layout.keymap[name.value], layer.value);
        if text == [] then None else Some(text)
  }

  /** Ctrl and Meta make no difference as soon as Shift or Alt is held. */
  lemma CtrlMetaIgnoredUnderShiftOrAlt(layout: Layout, e: KeyEvent, ctrl: bool, meta: bool)
    requires e.shiftKey || e.altKey
    ensures EventToUnicode(layout, e.(ctrlKey := ctrl, metaKey := meta)) == EventToUnicode(layout, e)
  {
  }

  /** A printable key always produces what its selected layer holds. */
  lemma PrintableIsSelectedLayer(layout: Layout, e: KeyEvent)
    requires EventToUnicode(layout, e).Some?
    ensures LayerOf(e).Some?
    ensures EventToUnicode(layout, e).value == Field(layout.keymap[layout.chars[e.keycode]], LayerOf(e).value)
  {
  }
}

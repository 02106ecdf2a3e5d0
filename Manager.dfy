/**
  The snippets manager: it owns the typing buffer and, on every key-down event,
  classifies the key, updates the buffer and, after a printable key, expands the
  first snippet that matches. The configuration (the ordered snippet list and the
  buffer length) is read fresh on every keystroke, so it is passed in each call.
*/
module Manager {

  import opened Wrappers
  import opened KeyEvents
  import opened TypingBuffer
  import opened Matching
  import opened Replacement

  /** The configuration as the store holds it at the moment of a keystroke. */
  datatype Config = Config(snippets: seq<Snippet>, bufferLength: int)

  /**
    The effects of looking for a match in the buffer: the expansion of the first
    match, or nothing when no snippet matches or a pattern throws first.
  */
  function ReplaceEffects(snippets: seq<Snippet>, buffer: string, clip: string, engine: RegexEngine, evaluate: Evaluator): seq<Action>
  {
    match FirstMatch(snippets, buffer, engine)
    case Found(index, text) => Expansion(snippets[index], text, clip, evaluate)
    case NotFound => []
    case Aborted(_) => []
  }

  /** The buffer after a key-down event. */
  function BufferAfterKeyDown(layout: Layout, shouldMatch: bool, limit: int, buffer: string, e: KeyEvent): string
  {
    if !shouldMatch then buffer
    else if ShouldResetBuffer(layout.chars, e) then []
    else if IsBackspace(layout.chars, e.keycode) then Shortened(buffer, 1)
    else
      match EventToUnicode(layout, e)
      case None => buffer
      case Some(text) => AfterTyping(buffer, text, limit)
  }

  /** The effects of a key-down event on the clipboard and the keyboard. */
  function EffectsOfKeyDown(layout: Layout, shouldMatch: bool, config: Config, buffer: string, e: KeyEvent,
                            clip: string, engine: RegexEngine, evaluate: Evaluator): seq<Action>
  {
    if !shouldMatch || ShouldResetBuffer(layout.chars, e) || IsBackspace(layout.chars, e.keycode) then []
    else
      match EventToUnicode(layout, e)
      case None => []
      case Some(_) =>
        ReplaceEffects(config.snippets, BufferAfterKeyDown(layout, shouldMatch, config.bufferLength, buffer, e), clip, engine, evaluate)
  }

  /**
    A key-down throws when a printable key leaves a buffer on which the search
    meets a pattern that does not compile before any match.
  */
  predicate KeyDownThrows(layout: Layout, shouldMatch: bool, config: Config, buffer: string, e: KeyEvent, engine: RegexEngine)
  {
    shouldMatch && !ShouldResetBuffer(layout.chars, e) && !IsBackspace(layout.chars, e.keycode)
    && EventToUnicode(layout, e).Some?
    && FirstMatch(config.snippets, BufferAfterKeyDown(layout, shouldMatch, config.bufferLength, buffer, e), engine).Aborted?
  }

  class SnippetsManager {
    const layout: Layout
    var buffer: string
    var shouldMatch: bool

    /** A manager starts with an empty buffer and with matching switched on. */
    constructor (layout: Layout)
      ensures this.layout == layout
      ensures buffer == [] && shouldMatch
    {
      this.layout := layout;
      buffer := [];
      shouldMatch := true;
    }

    /** The preferences window switches matching off on focus and back on on blur. */
    method SetShouldMatch(value: bool)
      modifies this`shouldMatch
      ensures shouldMatch == value
    {
      shouldMatch := value;
    }

    method ResetBuffer()
      modifies this`buffer
      ensures buffer == []
    {
      buffer := [];
    }

    /** A mouse click may move the cursor, so it always clears the buffer. */
    method OnMouseClick()
      modifies this`buffer
      ensures buffer == []
    {
      ResetBuffer();
    }

    method AddCharToBuffer(character: string)
      modifies this`buffer
      ensures buffer == old(buffer) + character
    {
      buffer := buffer + character;
    }

    method ShortenBufferBy(amount: nat)
      modifies this`buffer
      ensures buffer == Shortened(old(buffer), amount)
    {
      buffer := buffer[..Max(0, |buffer| - amount)];
    }

    method ShortenBufferIfNecessary(bufferLength: int)
      modifies this`buffer
      ensures buffer == Trimmed(old(buffer), bufferLength)
    {
      if |buffer| > bufferLength && buffer != [] {
        buffer := buffer[1..];
      }
    }

    /** Saves the clipboard, pastes `value` through it, and puts the saved text back. */
    method HandlePlainTextSnippet(value: string, desktop: Desktop)
      modifies desktop
      ensures desktop.clipboard == old(desktop.clipboard)
      ensures desktop.log == old(desktop.log)
        + [ReadClipboard(old(desktop.clipboard)), WriteClipboard(value), Paste, WriteClipboard(old(desktop.clipboard))]
    {
      var clipboardContent := desktop.ReadText();
      desktop.WriteText(value);
      desktop.TapPaste();
      desktop.WriteText(clipboardContent);
    }

    /**
      Saves the clipboard, evaluates the script on the matched text, pastes what it
      settles with (its result or its rejection reason), and restores the clipboard
      in either case.
    */
    method HandleJavascriptSnippet(matchedString: string, code: string, evaluate: Evaluator, desktop: Desktop)
      modifies desktop
      ensures desktop.clipboard == old(desktop.clipboard)
      ensures desktop.log == old(desktop.log)
        + [ReadClipboard(old(desktop.clipboard)), WriteClipboard(OutcomeText(evaluate(code, matchedString))),
           Paste, WriteClipboard(old(desktop.clipboard))]
    {
      var clipboardContent := desktop.ReadText();
      match evaluate(code, matchedString) {
        case Resolved(data) =>
          desktop.WriteText(data);
        case Rejected(error) =>
          desktop.WriteText(error);
      }
      desktop.TapPaste();
      desktop.WriteText(clipboardContent);
    }

    /**
      Erases the matched text with one Backspace per character, then hands the
      snippet to the script or the plain-text handler.
    */
    method ExpandMatch(snippet: Snippet, matchedString: string, evaluate: Evaluator, desktop: Desktop)
      modifies desktop
      ensures desktop.clipboard == old(desktop.clipboard)
      ensures desktop.log == old(desktop.log) + Expansion(snippet, matchedString, old(desktop.clipboard), evaluate)
    {
      var i := 0;
      while i < |matchedString|
        invariant i <= |matchedString|
        invariant desktop.log == old(desktop.log) + Backspaces(i)
        invariant desktop.clipboard == old(desktop.clipboard)
      {
        desktop.TapBackspace();
        i := i + 1;
      }
      if IsScript(snippet) {
        HandleJavascriptSnippet(matchedString, snippet.value, evaluate, desktop);
      } else {
        HandlePlainTextSnippet(snippet.value, desktop);
      }
      assert desktop.log == old(desktop.log) + Backspaces(|matchedString|)
        + [ReadClipboard(old(desktop.clipboard)), WriteClipboard(Payload(snippet, matchedString, evaluate)),
           Paste, WriteClipboard(old(desktop.clipboard))];
    }

    /**
      Tries the snippets in order; the first one whose pattern captures a non-empty
      text at the end of the buffer is expanded and the search stops. A pattern that
      does not compile throws: the search ends there with nothing expanded, and
      `syntaxError` reports the exception.
    */
    method ReplaceSnippetIfMatchFound(snippets: seq<Snippet>, engine: RegexEngine, evaluate: Evaluator, desktop: Desktop)
      returns (syntaxError: bool)
      modifies desktop
      ensures syntaxError <==> FirstMatch(snippets, buffer, engine).Aborted?
      ensures desktop.clipboard == old(desktop.clipboard)
      ensures desktop.log == old(desktop.log) + ReplaceEffects(snippets, buffer, old(desktop.clipboard), engine, evaluate)
    {
      var i := 0;
      while i < |snippets|
        invariant i <= |snippets|
        invariant FirstMatchFrom(snippets, i, buffer, engine) == FirstMatch(snippets, buffer, engine)
        invariant desktop.log == old(desktop.log) && desktop.clipboard == old(desktop.clipboard)
      {
        var snippet := snippets[i];
        var key := snippet.key;
        if !snippet.regex {
          key := Escape(key);
        }
        var capture := TailCapture(key, buffer, engine);
        FirstMatchStep(snippets, i, buffer, engine);
        if capture.None? {
          return true;
        }
        var matchedString := capture.value;
        if matchedString != [] {
          ExpandMatch(snippet, matchedString, evaluate, desktop);
          return false;
        }
        i := i + 1;
      }
      return false;
    }

    /**
      One key-down event: ignored while matching is off; Tab, the arrows and
      Alt+Backspace clear the buffer; Backspace drops its last character; a printable
      key is typed into the buffer, which is trimmed and then matched. `syntaxError`
      reports that the matching threw, after the buffer was updated.
    */
    method OnKeyDown(e: KeyEvent, config: Config, engine: RegexEngine, evaluate: Evaluator, desktop: Desktop)
      returns (syntaxError: bool)
      modifies this`buffer, desktop
      ensures syntaxError == KeyDownThrows(layout, shouldMatch, config, old(buffer), e, engine)
      ensures buffer == BufferAfterKeyDown(layout, shouldMatch, config.bufferLength, old(buffer), e)
      ensures desktop.clipboard == old(desktop.clipboard)
      ensures desktop.log == old(desktop.log)
        + EffectsOfKeyDown(layout, shouldMatch, config, old(buffer), e, old(desktop.clipboard), engine, evaluate)
    {
      syntaxError := false;
      if !shouldMatch {
        return;
      }
      if ShouldResetBuffer(layout.chars, e) {
        ResetBuffer();
        return;
      }
      if IsBackspace(layout.chars, e.keycode) {
        ShortenBufferBy(1);
        return;
      }
      var character := EventToUnicode(layout, e);
      if character.Some? {
        AddCharToBuffer(character.value);
        ShortenBufferIfNecessary(config.bufferLength);
        syntaxError := ReplaceSnippetIfMatchFound(config.snippets, engine, evaluate, desktop);
      }
    }
  }

  /** While matching is off a key-down changes nothing and does nothing. */
  lemma DisabledKeyDownIsInert(layout: Layout, config: Config, buffer: string, e: KeyEvent,
                               clip: string, engine: RegexEngine, evaluate: Evaluator)
    ensures BufferAfterKeyDown(layout, false, config.bufferLength, buffer, e) == buffer
    ensures EffectsOfKeyDown(layout, false, config, buffer, e, clip, engine, evaluate) == []
  {
  }

  /** Tab, an arrow key, or Backspace with Alt held empties the buffer and matches nothing. */
  lemma ResetKeysClearBuffer(layout: Layout, config: Config, buffer: string, e: KeyEvent,
                             clip: string, engine: RegexEngine, evaluate: Evaluator)
    requires e.keycode in layout.chars
    requires var name := layout.chars[e.keycode];
      name == KeyTab || name in KeyArrows || (name == KeyBackspace && e.altKey)
    ensures BufferAfterKeyDown(layout, true, config.bufferLength, buffer, e) == []
    ensures EffectsOfKeyDown(layout, true, config, buffer, e, clip, engine, evaluate) == []
  {
  }

  /** A plain Backspace removes exactly the last character, if any, and matches nothing. */
  lemma BackspaceDropsLast(layout: Layout, config: Config, buffer: string, e: KeyEvent,
                           clip: string, engine: RegexEngine, evaluate: Evaluator)
    requires e.keycode in layout.chars && layout.chars[e.keycode] == KeyBackspace && !e.altKey
    ensures buffer != [] ==> BufferAfterKeyDown(layout, true, config.bufferLength, buffer, e) + [buffer[|buffer| - 1]] == buffer
    ensures buffer == [] ==> BufferAfterKeyDown(layout, true, config.bufferLength, buffer, e) == []
    ensures EffectsOfKeyDown(layout, true, config, buffer, e, clip, engine, evaluate) == []
  {
  }

  /**
    A printable key leaves a suffix of the old buffer followed by the typed text,
    which ends the new buffer unless the limit leaves no room for it.
  */
  lemma PrintableKeyTypes(layout: Layout, config: Config, buffer: string, e: KeyEvent, text: string)
    requires !ShouldResetBuffer(layout.chars, e) && !IsBackspace(layout.chars, e.keycode)
    requires EventToUnicode(layout, e) == Some(text)
    ensures IsSuffix(BufferAfterKeyDown(layout, true, config.bufferLength, buffer, e), buffer + text)
    ensures buffer != [] || |text| <= config.bufferLength ==>
      IsSuffix(text, BufferAfterKeyDown(layout, true, config.bufferLength, buffer, e))
  {
    AfterTypingLaws(buffer, text, config.bufferLength);
  }

  /** Every layer of every key types at most one character. */
  ghost predicate SingleUnitLayout(layout: Layout)
  {
    forall name :: name in layout.keymap ==>
      var m := layout.keymap[name];
      |m.value| <= 1 && |m.withShift| <= 1 && |m.withAltGr| <= 1 && |m.withShiftAltGr| <= 1
  }

  /**
    The length bound is an invariant of every key-down event, provided every key
    types a single character and the limit is not lowered below the buffer.
  */
  lemma KeyDownKeepsBound(layout: Layout, shouldMatch: bool, limit: int, buffer: string, e: KeyEvent)
    requires SingleUnitLayout(layout)
    requires |buffer| <= limit
    ensures |BufferAfterKeyDown(layout, shouldMatch, limit, buffer, e)| <= limit
  {
  }

  /**
    A key-down expands at most one snippet: it pastes once when a printable key
    leaves a buffer on which the search finds a match before any pattern throws,
    and never otherwise.
  */
  lemma {:induction false} AtMostOneExpansion(layout: Layout, shouldMatch: bool, config: Config, buffer: string, e: KeyEvent,
                                              clip: string, engine: RegexEngine, evaluate: Evaluator)
    ensures var effects := EffectsOfKeyDown(layout, shouldMatch, config, buffer, e, clip, engine, evaluate);
      CountPastes(effects) <= 1
      && (CountPastes(effects) == 1 <==>
            shouldMatch && !ShouldResetBuffer(layout.chars, e) && !IsBackspace(layout.chars, e.keycode)
            && EventToUnicode(layout, e).Some?
            && FirstMatch(config.snippets, BufferAfterKeyDown(layout, shouldMatch, config.bufferLength, buffer, e), engine).Found?)
  {
    var after := BufferAfterKeyDown(layout, shouldMatch, config.bufferLength, buffer, e);
    var m := FirstMatch(config.snippets, after, engine);
    if m.Found? {
      ExpansionPastesOnce(config.snippets[m.index], m.text, clip, evaluate);
    }
  }

  /**
    When a literal snippet wins, exactly its trigger is erased: one Backspace per
    character of the trigger, then the clipboard exchange.
  */
  lemma LiteralWinnerErasesTrigger(snippets: seq<Snippet>, buffer: string, clip: string, engine: RegexEngine,
                                   evaluate: Evaluator, index: nat, text: string)
    requires FirstMatch(snippets, buffer, engine) == Found(index, text)
    requires !snippets[index].regex
    ensures var s := snippets[index];
      ReplaceEffects(snippets, buffer, clip, engine, evaluate)
        == Backspaces(|s.key|)
           + [ReadClipboard(clip), WriteClipboard(Payload(s, s.key, evaluate)), Paste, WriteClipboard(clip)]
  {
    LiteralSnippetCapture(snippets[index], buffer, engine);
  }

  /**
    Typing the last character of ":date:" after "hello" with a script snippet for
    that trigger erases six characters and pastes what the script returns.
  */
  lemma DateSnippetExample(engine: RegexEngine, evaluate: Evaluator, clip: string, stamp: string)
    requires evaluate("() => new Date().toISOString()", ":date:") == Resolved(stamp)
    ensures var date := Snippet(":date:", false, "js", "() => new Date().toISOString()");
      ReplaceEffects([date], "hello:date:", clip, engine, evaluate)
        == Backspaces(6) + [ReadClipboard(clip), WriteClipboard(stamp), Paste, WriteClipboard(clip)]
  {
    var date := Snippet(":date:", false, "js", "() => new Date().toISOString()");
    var buffer := "hello:date:";
    assert buffer[|buffer| - 6..] == ":date:";
    LiteralSnippetCapture(date, buffer, engine);
    assert FirstMatch([date], buffer, engine) == Found(0, ":date:");
  }

  /**
    A key code the `chars` table does not know is looked up as null: it neither
    resets nor shortens the buffer, types nothing and expands nothing.
  */
  lemma UnknownKeyIsIgnored(layout: Layout, shouldMatch: bool, config: Config, buffer: string, e: KeyEvent,
                            clip: string, engine: RegexEngine, evaluate: Evaluator)
    requires e.keycode !in layout.chars
    ensures BufferAfterKeyDown(layout, shouldMatch, config.bufferLength, buffer, e) == buffer
    ensures EffectsOfKeyDown(layout, shouldMatch, config, buffer, e, clip, engine, evaluate) == []
    ensures !KeyDownThrows(layout, shouldMatch, config, buffer, e, engine)
  {
  }

  /**
    When a pattern throws before any snippet matches, the key-down has no effect,
    although the typed text is already in the buffer.
  */
  lemma ThrowingKeyDownHasNoEffect(layout: Layout, shouldMatch: bool, config: Config, buffer: string, e: KeyEvent,
                                   clip: string, engine: RegexEngine, evaluate: Evaluator)
    requires KeyDownThrows(layout, shouldMatch, config, buffer, e, engine)
    ensures EffectsOfKeyDown(layout, shouldMatch, config, buffer, e, clip, engine, evaluate) == []
    ensures BufferAfterKeyDown(layout, shouldMatch, config.bufferLength, buffer, e)
      == AfterTyping(buffer, EventToUnicode(layout, e).value, config.bufferLength)
  {
  }

  /**
    A regex snippet whose pattern does not compile, placed before a literal snippet
    whose trigger ends the buffer, stops the search: nothing is expanded.
  */
  lemma BadRegexDisablesLaterSnippets(engine: RegexEngine, evaluate: Evaluator, clip: string)
    requires engine("[", "xab").None?
    ensures var snippets := [Snippet("[", true, "", "bracket"), Snippet("ab", false, "", "AB")];
      && FirstMatch(snippets, "xab", engine) == Aborted(0)
      && ReplaceEffects(snippets, "xab", clip, engine, evaluate) == []
  {
    var snippets := [Snippet("[", true, "", "bracket"), Snippet("ab", false, "", "AB")];
    assert LiteralOf("[") == None;
    BadPatternStopsSearch(snippets, "xab", engine, 0);
  }
}

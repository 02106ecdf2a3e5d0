# Quickwords snippet engine, modelled in Dafny

Quickwords is a system-wide text expander. Its `SnippetsManager` watches every
key-down and mouse-click event and keeps a rolling buffer of recently typed
text. After each printable key it tries the configured snippets in their stored
order. When a snippet's trigger (a literal or a regular expression) matches the
end of the buffer, the manager erases the typed trigger with Backspace taps. It
then pastes the replacement through the clipboard: the snippet's text, or what
its script evaluates to. Finally it puts the old clipboard text back. A regex
trigger that does not compile throws, which ends that keystroke's search with
nothing expanded.

The model has these modules:

- `KeyEvents` (KeyEvents.dfy): looks up key names and resolves the text a key
  types from the modifier flags, through the `chars` table and the native keymap.
- `TypingBuffer` (TypingBuffer.dfy): the laws of the buffer, which is appended
  to, trimmed at the front by one character, and cut at the tail.
- `Matching` (Matching.dfy): escapes a literal trigger, reads a pattern as a
  literal, takes the capture at the end of the buffer, and searches for the first
  matching snippet. The search ends in a match, in no match, or at a pattern
  that does not compile.
- `Replacement` (Replacement.dfy): the effects of one expansion on the keyboard
  and the clipboard. The `Desktop` class stands for the clipboard and the
  keystroke injector and records every effect in order.
- `Manager` (Manager.dfy): the `SnippetsManager` class with its `buffer` and
  `shouldMatch` fields and its key-down, mouse-click and expansion methods. Each
  method is proved against specification functions of the old state.

Strings are sequences of `char`, one `char` per JavaScript string code unit.
The configuration (the snippet list and `bufferLength`) is read from the store
on every printable keystroke while matching is on, so the model passes it in
with each call; the other key-down paths ignore it. Four things
outside the core become parameters:

- the `chars` and keymap tables: a `Layout`;
- the regular-expression engine used for non-literal patterns: a `RegexEngine`
  function, which reports a pattern that does not compile as `None`;
- the evaluation of a script snippet: an `Evaluator` function giving an
  `Outcome`;
- the clipboard and the keystroke injector: a `Desktop` object.

Three behaviours of the code are easy to miss. The model follows the code in
each:

- The Backspace taps come before the clipboard is read, not after.
- The buffer is trimmed by only one character per keystroke. So the length
  bound holds only when every key types a single code unit and the limit is
  never lowered below the buffer's length (`KeyDownKeepsBound`,
  `WideTextOverrunsLimit`, `LoweredLimitIsNotRestored`).
- Whether the script resolves or is rejected, what it settles with is written
  to the clipboard, which is then restored. The model takes that payload to be
  text; see `HandleJavascriptSnippet` under "Left out".

## Model

| member | source | states |
|---|---|---|
| `KeyEvents.LayerOf` | src/main/modules/SnippetsManager.js:49-59 | Shift+Alt selects the Shift+AltGr layer, Shift alone the shifted layer, Alt alone the AltGr layer, no modifier the base layer, and Ctrl or Meta without Shift or Alt selects none; exactly one of these holds |
| `KeyEvents.EventToUnicode` | src/main/modules/SnippetsManager.js:40-66 | a printable result is non-empty and comes from a known key; an unknown key code, an empty name, a name missing from the keymap, a Ctrl/Meta chord or an empty layer gives "not printable"; otherwise the result is the layer picked by the modifier priority |
| `KeyEvents.CtrlMetaIgnoredUnderShiftOrAlt` | src/main/modules/SnippetsManager.js:49-54 | with Shift or Alt held, the Ctrl and Meta flags do not change the typed text |
| `KeyEvents.PrintableIsSelectedLayer` | src/main/modules/SnippetsManager.js:47-65 | a printable key types exactly the keymap field its modifier layer selects |
| `TypingBuffer.Shortened` | src/main/modules/SnippetsManager.js:212-214 | cutting `amount` characters leaves a prefix of the buffer whose length is the old length minus `amount`, and never less than zero |
| `TypingBuffer.Trimmed` | src/main/modules/SnippetsManager.js:216-220 | the trimmed buffer is a suffix of the buffer, one character shorter when the buffer is over the limit and unchanged otherwise |
| `TypingBuffer.AfterTypingLaws` | src/main/modules/SnippetsManager.js:101-103 | after typing `text`, the buffer is a suffix of old buffer + `text`; it ends with `text` exactly when the old buffer was non-empty or `text` fits the limit; a buffer within the limit stays within it when one character is typed |
| `TypingBuffer.TypingIntoFullWindow` | src/main/modules/SnippetsManager.js:216-220 | typing one character into a full buffer drops exactly the oldest character |
| `TypingBuffer.WideTextOverrunsLimit` | src/main/modules/SnippetsManager.js:208-220 | a two-unit text typed into a full buffer of length 2 leaves 3 characters, because only one is trimmed |
| `TypingBuffer.LoweredLimitIsNotRestored` | src/main/modules/SnippetsManager.js:216-220 | a buffer more than one character over a newly lowered limit keeps its length after a keystroke |
| `Matching.LiteralOfEscape` | src/main/modules/SnippetsManager.js:160-163 | `Escape` is sound: the escaped trigger, read as a pattern, stands for exactly the trigger |
| `Matching.LiteralSnippetCapture` | src/main/modules/SnippetsManager.js:160-166 | a non-regex snippet's pattern always compiles; it matches exactly when its non-empty trigger ends the buffer, case-sensitively, and the matched text is then the trigger |
| `Matching.CaptureIsSuffix` | src/main/modules/SnippetsManager.js:165-166 | with an engine that only captures text at the end of the buffer, every match of a compiled pattern is a suffix of the buffer |
| `Matching.FirstMatchFrom` | src/main/modules/SnippetsManager.js:157-181 | the search stops at the first snippet in stored order whose pattern does not compile (aborted) or captures a non-empty text (found, with that text); every snippet before it compiles and misses; "not found" means that every snippet compiles and misses |
| `Matching.EarlierSnippetWins` | src/main/modules/SnippetsManager.js:157-181 | when two snippets both match, the later one is never expanded: the search stops at the earlier one, or before it on a match or on a pattern that throws |
| `Matching.EarlierLiteralWins` | src/main/modules/SnippetsManager.js:157-181 | when the triggers of two literal snippets both end the buffer, the earlier snippet or one before it is expanded, unless an earlier regex snippet's pattern throws first; the later one never is |
| `Matching.LiteralsNeverAbort` | src/main/modules/SnippetsManager.js:160-165 | a search over literal snippets alone never ends in an exception |
| `Matching.BadPatternStopsSearch` | src/main/modules/SnippetsManager.js:157-165 | a pattern that does not compile, reached with every earlier snippet missing, aborts the search there, whatever later snippets would match |
| `Matching.NonSuffixDoesNotMatch` | src/main/modules/SnippetsManager.js:165-166 | the "only if" half of `LiteralSnippetCapture`: a literal trigger that does not end the buffer compiles and never matches, wherever else it occurs |
| `Replacement.Backspaces` | src/main/modules/SnippetsManager.js:169-171 | n Backspace taps, and nothing else |
| `Replacement.ExpansionLaws` | src/main/modules/SnippetsManager.js:168-206 | an expansion taps Backspace exactly once per matched character, all of them before any clipboard effect; it reads the clipboard as it is, pastes while the clipboard holds the payload, and leaves the clipboard text as it found it |
| `Replacement.ScriptPastesOutcome` | src/main/modules/SnippetsManager.js:184-196 | a script snippet writes its outcome's text to the clipboard, whether the script resolved or was rejected, and then writes the saved text back |
| `Replacement.ExpansionPastesOnce` | src/main/modules/SnippetsManager.js:194-205 | an expansion pastes exactly once |
| `Replacement.Desktop.ReadText` | src/main/modules/SnippetsManager.js:200 | reading returns the current clipboard and records the read |
| `Replacement.Desktop.WriteText` | src/main/modules/SnippetsManager.js:202 | writing replaces the clipboard and records the write |
| `Replacement.Desktop.TapBackspace` | src/main/modules/SnippetsManager.js:170 | records one Backspace tap |
| `Replacement.Desktop.TapPaste` | src/main/modules/SnippetsManager.js:204 | records one paste chord |
| `Manager.SnippetsManager.constructor` | src/main/modules/SnippetsManager.js:13-17 | a new manager has an empty buffer and matching switched on |
| `Manager.SnippetsManager.SetShouldMatch` | src/main.js:45-50 | focusing or blurring the preferences window sets `shouldMatch` and changes nothing else |
| `Manager.SnippetsManager.ResetBuffer` | src/main/modules/SnippetsManager.js:68-70 | the buffer becomes empty |
| `Manager.SnippetsManager.OnMouseClick` | src/main/modules/SnippetsManager.js:72-74 | a mouse click empties the buffer whatever `shouldMatch` is |
| `Manager.SnippetsManager.AddCharToBuffer` | src/main/modules/SnippetsManager.js:208-210 | the typed text is appended to the buffer |
| `Manager.SnippetsManager.ShortenBufferBy` | src/main/modules/SnippetsManager.js:212-214 | the buffer becomes `Shortened` of its old value |
| `Manager.SnippetsManager.ShortenBufferIfNecessary` | src/main/modules/SnippetsManager.js:216-220 | the buffer becomes `Trimmed` of its old value against the configured length |
| `Manager.SnippetsManager.HandlePlainTextSnippet` | src/main/modules/SnippetsManager.js:199-206 | the effects are: read the clipboard, write the value, paste, write the saved text back; the clipboard text ends as it started |
| `Manager.SnippetsManager.HandleJavascriptSnippet` | src/main/modules/SnippetsManager.js:184-197 | the effects are: read the clipboard, write the script's outcome text, paste, write the saved text back; the clipboard text ends as it started |
| `Manager.SnippetsManager.ExpandMatch` | src/main/modules/SnippetsManager.js:168-178 | the loop taps Backspace once per matched character, then the snippet's handler runs; the effects are exactly the expansion of the match |
| `Manager.SnippetsManager.ReplaceSnippetIfMatchFound` | src/main/modules/SnippetsManager.js:156-182 | the loop over the snippets in order performs the expansion of the first match; it does nothing when none matches or when a pattern throws first, and it reports the throw exactly when the search aborts; the clipboard text ends as it started |
| `Manager.SnippetsManager.OnKeyDown` | src/main/modules/SnippetsManager.js:84-108 | the new buffer and the effects are those of the key-down specification; the method reports an exception exactly when a printable key's search meets a pattern that does not compile; the clipboard text ends as it started |
| `Manager.DisabledKeyDownIsInert` | src/main/modules/SnippetsManager.js:84-87 | while matching is off, a key-down leaves the buffer unchanged and has no effect |
| `Manager.ResetKeysClearBuffer` | src/main/modules/SnippetsManager.js:76-92 | Tab, an arrow key, or Backspace with Alt empties the buffer and has no effect |
| `Manager.BackspaceDropsLast` | src/main/modules/SnippetsManager.js:94-97 | a plain Backspace removes exactly the last character (an empty buffer stays empty) and has no effect |
| `Manager.PrintableKeyTypes` | src/main/modules/SnippetsManager.js:99-105 | after a printable key the buffer is a suffix of the old buffer + the typed text, and it ends with that text unless the limit leaves no room for it |
| `Manager.KeyDownKeepsBound` | src/main/modules/SnippetsManager.js:99-105 | when every key types a single code unit, a buffer within the limit stays within it after any key-down |
| `Manager.AtMostOneExpansion` | src/main/modules/SnippetsManager.js:156-181 | a key-down pastes at most once, and it pastes exactly when a printable key leaves a buffer on which the search finds a match before any pattern throws |
| `Manager.UnknownKeyIsIgnored` | src/main/modules/SnippetsManager.js:36-45 | a key code missing from the `chars` table leaves the buffer unchanged, has no effect and throws nothing |
| `Manager.ThrowingKeyDownHasNoEffect` | src/main/modules/SnippetsManager.js:99-105 | when the search throws, the key-down has no effect, but the typed text is already in the buffer |
| `Manager.BadRegexDisablesLaterSnippets` | src/main/modules/SnippetsManager.js:157-181 | with the snippets `[` (a regex that does not compile) and `ab` (literal) and the buffer "xab", the search aborts at the first snippet and nothing is expanded |
| `Manager.LiteralWinnerErasesTrigger` | src/main/modules/SnippetsManager.js:168-177 | when a literal snippet wins, its trigger's length in Backspaces is tapped, followed by the clipboard exchange |
| `Manager.DateSnippetExample` | src/main/modules/SnippetsManager.js:156-197 | with buffer "hello:date:" and a script snippet for ":date:", the effects are 6 Backspaces, then the script's text is pasted and the clipboard is restored |

## Left out

- Input hook plumbing: subscribing to key-down and mouse-click events, starting and stopping the hook, and the destructor. `robot.setKeyboardDelay` is left out too. Events arrive as method calls.
- The 50 ms and 500 ms timers: their effects are modelled in the order they take effect. Timing is not modelled.
- Concurrency: a script snippet is asynchronous, but the model runs each expansion to completion within its keystroke. Interleaving with later keystrokes is not modelled, nor are races between overlapping expansions.
- Script evaluation (`_evaluate`, `_isPromise`) is not modelled. Evaluating user code, the 5-second timeout, promise settlement and JSON serialisation of non-string results all belong to the foreign `Evaluator` parameter, whose `Outcome` is opaque.
- General regular-expression semantics for `regex: true` snippets: patterns that are not plain literals are left to the `RegexEngine` parameter. This engine either reports that the pattern does not compile or returns a capture. `CaptureIsSuffix` assumes this engine only captures text at the end of the buffer. A pattern with an unbalanced `)` could break out of the capture group in JavaScript, and that case is not modelled.
- The exception thrown by a pattern that does not compile is modelled as a returned flag. What the input hook does with it after the key-down handler exits is not modelled.
- HandleJavascriptSnippet: the model writes text in every case. The code can write non-text values. A script result that `JSON.stringify` cannot serialise (`undefined`, a function, a symbol) gives `undefined`, which is written to the clipboard. A script that throws synchronously has its Error object written. `Outcome` carries text only, so these cases are not modelled.
- The `Config` parameter assumes that a store is supplied. In src/main.js:15 the manager is built without one. There, reading `bufferLength` would throw on the first printable key, after the text has been appended and before any matching. That failure is not modelled.
- The clipboard is modelled as its text only. The code saves with `clipboard.readText()` and restores with `clipboard.writeText`, which handle plain text alone, so an image, a file or formatting on the clipboard is replaced by its plain text, or by "", after an expansion. `Desktop.clipboard` is a `string`, so the model does not capture that loss.
- Property-path parsing by lodash's `_.get` and inherited properties found by `in` are not modelled. Key names are assumed to be plain identifiers.
- Debug logging of the buffer to the console.
- The contents of the `chars` table and the native keymap are not part of this model. They are the `Layout` parameter. An empty keymap field stands both for a missing field and for an empty one, since the code treats both as "not printable".
- Strings are modelled as code units without surrogate pairs. Text typed outside the Basic Multilingual Plane is not modelled.
- The rest of src/main.js (app lifecycle, tray, windows, update check) is not part of this model. Only the focus/blur toggle of `shouldMatch` is modelled.

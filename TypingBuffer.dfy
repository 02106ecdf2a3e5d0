/**
  The rolling window of recently typed text. The manager appends what a printable
  key types, trims the front when the window grows past the configured length, and
  cuts the tail on Backspace. These functions give the new window in terms of the
  old one; the manager's methods are specified by them.
*/
module TypingBuffer {

  predicate IsSuffix(s: string, t: string)
  {
    |s| <= |t| && t[|t| - |s|..] == s
  }

  function Max(a: int, b: int): int
  {
    if a < b then b else a
  }

  /**
    The window with its last `amount` characters cut; cutting more than there is
    leaves it empty, as taking a substring up to a negative end does.
  */
  function Shortened(buffer: string, amount: nat): (r: string)
    ensures r <= buffer
    ensures |r| == Max(0, |buffer| - amount)
  {
    buffer[..Max(0, |buffer| - amount)]
  }

  /**
    One trimming step: when the window is longer than `limit`, its oldest character
    is dropped, and only that one (an empty window stays empty, as the substring
    from index 1 of an empty string is empty).
  */
  function Trimmed(buffer: string, limit: int): (r: string)
    ensures IsSuffix(r, buffer)
    ensures |r| == if |buffer| > limit then Max(0, |buffer| - 1) else |buffer|
  {
    if |buffer| > limit && buffer != [] then buffer[1..] else buffer
  }

  /** The window after a printable key that types `text`. */
  function AfterTyping(buffer: string, text: string, limit: int): string
  {
    Trimmed(buffer + text, limit)
  }

  /**
    Typing `text` leaves a suffix of the old window followed by `text`; the window
    ends with `text` unless the window was empty and a non-empty `text` alone is over
    the limit;
    and a window within the limit stays within it when a single character is typed.
  */
  lemma AfterTypingLaws(buffer: string, text: string, limit: int)
    ensures IsSuffix(AfterTyping(buffer, text, limit), buffer + text)
    ensures IsSuffix(text, AfterTyping(buffer, text, limit)) <==> !(buffer == [] && text != [] && |text| > limit)
    ensures |buffer| <= limit && |text| == 1 ==> |AfterTyping(buffer, text, limit)| <= limit
  {
  }

  /** On a full window, typing one character drops exactly the oldest one. */
  lemma TypingIntoFullWindow(buffer: string, c: char, limit: int)
    requires |buffer| == limit && buffer != []
    ensures AfterTyping(buffer, [c], limit) == buffer[1..] + [c]
  {
  }

  /**
    Only one character is dropped per keystroke, so text wider than one character
    overruns the limit.
  */
  lemma WideTextOverrunsLimit()
    ensures |AfterTyping("xy", "ab", 2)| == 3
  {
  }

  /** For the same reason, a window longer than a newly lowered limit stays too long. */
  lemma LoweredLimitIsNotRestored(buffer: string, c: char, limit: int)
    requires |buffer| > limit + 1
    ensures |AfterTyping(buffer, [c], limit)| == |buffer| > limit
  {
  }
}

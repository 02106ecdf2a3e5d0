/**
  The replacer: what an expansion does to the outside world. It taps Backspace once
  per matched character, saves the clipboard, writes the replacement text to it,
  pastes, and writes the saved text back. The clipboard and the injected keystrokes
  are modelled by the Desktop class, which records every effect in order.
*/
module Replacement {

  import opened Matching

  /** How a script snippet's evaluation settles: with a text, or with a reason. */
  datatype Outcome = Resolved(text: string) | Rejected(reason: string)

  /** Evaluation of a script snippet's code on the matched text. */
  type Evaluator = (string, string) -> Outcome

  /** One observable effect on the clipboard or the keyboard. */
  datatype Action = Backspace | ReadClipboard(text: string) | WriteClipboard(text: string) | Paste

  /** Whatever way a script settles, its payload is a text for the clipboard. */
  function OutcomeText(o: Outcome): string
  {
    match o
    case Resolved(t) => t
    case Rejected(reason) => reason
  }

  function Backspaces(n: nat): (r: seq<Action>)
    ensures |r| == n
    ensures forall k :: 0 <= k < n ==> r[k] == Backspace
  {
    if n == 0 then [] else Backspaces(n - 1) + [Backspace]
  }

  predicate IsScript(s: Snippet)
  {
    s.kind == "js"
  }

  /** The text an expansion pastes: the script's outcome for "js" snippets, the value otherwise. */
  function Payload(s: Snippet, matched: string, evaluate: Evaluator): string
  {
    if IsScript(s) then OutcomeText(evaluate(s.value, matched)) else s.value
  }

  /** The effects of expanding `s` on `matched` while the clipboard holds `saved`. */
  function Expansion(s: Snippet, matched: string, saved: string, evaluate: Evaluator): seq<Action>
  {
    Backspaces(|matched|)
      + [ReadClipboard(saved), WriteClipboard(Payload(s, matched, evaluate)), Paste, WriteClipboard(saved)]
  }

  /** The clipboard after a sequence of effects, starting from `clip`. */
  function Replay(clip: string, actions: seq<Action>): string
    decreases |actions|
  {
    if actions == [] then clip
    else Replay(if actions[0].WriteClipboard? then actions[0].text else clip, actions[1..])
  }

  /** Every clipboard read in the sequence sees what the clipboard holds at that point. */
  predicate ReadsAreFaithful(clip: string, actions: seq<Action>)
    decreases |actions|
  {
    actions == []
    || ((actions[0].ReadClipboard? ==> actions[0].text == clip)
        && ReadsAreFaithful(if actions[0].WriteClipboard? then actions[0].text else clip, actions[1..]))
  }

  lemma {:induction false} ReplayAppend(clip: string, a: seq<Action>, b: seq<Action>)
    ensures Replay(clip, a + b) == Replay(Replay(clip, a), b)
    ensures ReadsAreFaithful(clip, a + b) <==> ReadsAreFaithful(clip, a) && ReadsAreFaithful(Replay(clip, a), b)
    decreases |a|
  {
    if a == [] {
      assert a + b == b;
    } else {
      assert (a + b)[0] == a[0];
      assert (a + b)[1..] == a[1..] + b;
      ReplayAppend(if a[0].WriteClipboard? then a[0].text else clip, a[1..], b);
    }
  }

  /** Backspace taps leave the clipboard alone. */
  lemma {:induction false} ReplayBackspaces(clip: string, n: nat)
    ensures Replay(clip, Backspaces(n)) == clip
    ensures ReadsAreFaithful(clip, Backspaces(n))
  {
    if n > 0 {
      ReplayBackspaces(clip, n - 1);
      ReplayAppend(clip, Backspaces(n - 1), [Backspace]);
    }
  }

  /**
    An expansion taps Backspace exactly once per matched character and before any
    clipboard effect; it reads the clipboard as it is, pastes while the clipboard
    holds the payload, and leaves the clipboard as it found it.
  */
  lemma ExpansionLaws(s: Snippet, matched: string, clip: string, evaluate: Evaluator)
    ensures var e := Expansion(s, matched, clip, evaluate);
      && |e| == |matched| + 4
      && (forall k :: 0 <= k < |e| ==> (e[k] == Backspace <==> k < |matched|))
      && e[|matched| + 2] == Paste
      && Replay(clip, e[..|matched| + 2]) == Payload(s, matched, evaluate)
      && Replay(clip, e) == clip
      && ReadsAreFaithful(clip, e)
  {
    var e := Expansion(s, matched, clip, evaluate);
    var n := |matched|;
    var payload := Payload(s, matched, evaluate);
    var tail := [ReadClipboard(clip), WriteClipboard(payload), Paste, WriteClipboard(clip)];
    ReplayBackspaces(clip, n);
    ReplayAppend(clip, Backspaces(n), tail);
    assert tail[1..] == [WriteClipboard(payload), Paste, WriteClipboard(clip)];
    assert tail[2..] == [Paste, WriteClipboard(clip)];
    assert tail[3..] == [WriteClipboard(clip)];
    assert tail[3..][1..] == [];
    assert Replay(clip, tail[3..]) == clip && ReadsAreFaithful(payload, tail[3..]);
    assert Replay(payload, tail[2..]) == clip && ReadsAreFaithful(payload, tail[2..]) by {
      assert tail[2..][1..] == tail[3..];
    }
    assert Replay(clip, tail[1..]) == clip && ReadsAreFaithful(clip, tail[1..]) by {
      assert tail[1..][1..] == tail[2..];
    }
    assert Replay(clip, tail) == clip && ReadsAreFaithful(clip, tail);
    assert e[..n + 2] == Backspaces(n) + tail[..2];
    var upToPaste := [ReadClipboard(clip), WriteClipboard(payload)];
    assert tail[..2] == upToPaste;
    assert upToPaste[1..] == [WriteClipboard(payload)];
    assert Replay(payload, upToPaste[1..][1..]) == payload;
    ReplayAppend(clip, Backspaces(n), tail[..2]);
  }

  /** A script snippet pastes its outcome's text whether the script resolved or was rejected. */
  lemma ScriptPastesOutcome(s: Snippet, matched: string, clip: string, evaluate: Evaluator)
    requires IsScript(s)
    ensures Expansion(s, matched, clip, evaluate)[|matched| + 1] == WriteClipboard(OutcomeText(evaluate(s.value, matched)))
    ensures Expansion(s, matched, clip, evaluate)[|matched| + 3] == WriteClipboard(clip)
  {
  }

  /** Each expansion contains exactly one paste. */
  function CountPastes(actions: seq<Action>): nat
    decreases |actions|
  {
    if actions == [] then 0 else (if actions[0] == Paste then 1 else 0) + CountPastes(actions[1..])
  }

  lemma {:induction false} CountPastesAppend(a: seq<Action>, b: seq<Action>)
    ensures CountPastes(a + b) == CountPastes(a) + CountPastes(b)
    decreases |a|
  {
    if a == [] {
      assert a + b == b;
    } else {
      assert (a + b)[0] == a[0];
      assert (a + b)[1..] == a[1..] + b;
      CountPastesAppend(a[1..], b);
    }
  }

  lemma {:induction false} ExpansionPastesOnce(s: Snippet, matched: string, clip: string, evaluate: Evaluator)
    ensures CountPastes(Expansion(s, matched, clip, evaluate)) == 1
  {
    var n := |matched|;
    var tail := [ReadClipboard(clip), WriteClipboard(Payload(s, matched, evaluate)), Paste, WriteClipboard(clip)];
    NoPastesInBackspaces(n);
    CountPastesAppend(Backspaces(n), tail);
    assert tail[3..] == [WriteClipboard(clip)] && tail[3..][1..] == [];
    assert CountPastes(tail[3..]) == 0 by {
      assert tail[3..][0] != Paste;
    }
    assert CountPastes(tail[2..]) == 1 by {
      assert tail[2..][0] == Paste;
      assert tail[2..][1..] == tail[3..];
    }
    assert tail[1..][1..] == tail[2..];
  }

  lemma {:induction false} NoPastesInBackspaces(n: nat)
    ensures CountPastes(Backspaces(n)) == 0
  {
    if n > 0 {
      NoPastesInBackspaces(n - 1);
      CountPastesAppend(Backspaces(n - 1), [Backspace]);
    }
  }

  /**
    The system clipboard and the keystroke injector, with every effect recorded in
    `log` in the order it happens.
  */
  class Desktop {
    var clipboard: string
    var log: seq<Action>

    constructor (clip: string)
      ensures clipboard == clip && log == []
    {
      clipboard := clip;
      log := [];
    }

    method ReadText() returns (t: string)
      modifies this`log
      ensures t == clipboard
      ensures log == old(log) + [ReadClipboard(t)]
    {
      t := clipboard;
      log := log + [ReadClipboard(t)];
    }

    method WriteText(t: string)
      modifies this
      ensures clipboard == t
      ensures log == old(log) + [WriteClipboard(t)]
    {
      clipboard := t;
      log := log + [WriteClipboard(t)];
    }

    method TapBackspace()
      modifies this`log
      ensures log == old(log) + [Backspace]
    {
      log := log + [Backspace];
    }

    /** The Cmd+V chord. */
    method TapPaste()
      modifies this`log
      ensures log == old(log) + [Paste]
    {
      log := log + [Paste];
    }
  }
}

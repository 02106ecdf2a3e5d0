/**
  The snippet matcher. Each snippet's trigger is turned into a pattern (a literal
  trigger has every regular-expression special character escaped first) and run,
  anchored at the end of the buffer, as `.*(pattern)$`; the text captured by the
  group is the match, and an empty capture counts as no match. Snippets are tried
  in their stored order and the first one that matches wins. A pattern that does
  not compile throws, which ends the search with no match at all.
*/
module Matching {

  import opened Wrappers
  import opened TypingBuffer

  /** A configured snippet; `kind` is the stored type name, "js" for a script. */
  datatype Snippet = Snippet(key: string, regex: bool, kind: string, value: string)

  /**
    The regular-expression engine for patterns that are not plain literals: given a
    pattern and the buffer, None when `.*(pattern)$` does not compile, and otherwise
    the text its group 1 captures, with the empty string standing for "no match"
    as well as for an empty capture.
  */
  type RegexEngine = (string, string) -> Option<string>

  /** The characters `\s` stands for in a JavaScript regular expression. */
  predicate IsRegexWhitespace(c: char)
  {
    c in {'\t', '\n', '\U{000B}', '\U{000C}', '\r', ' ', '\U{00A0}', '\U{1680}', '\U{2028}',
          '\U{2029}', '\U{202F}', '\U{205F}', '\U{3000}', '\U{FEFF}'}
    || ('\U{2000}' <= c <= '\U{200A}')
  }

  /** The characters a literal trigger escapes with a backslash. */
  predicate IsEscaped(c: char)
  {
    c in {'-', '[', ']', '{', '}', '(', ')', '*', '+', '?', '.', ',', '\\', '^', '$', '|', '#'}
    || IsRegexWhitespace(c)
  }

  /** The characters with a special meaning in a regular-expression pattern. */
  predicate IsSyntaxCharacter(c: char)
  {
    c in {'^', '$', '\\', '.', '*', '+', '?', '(', ')', '[', ']', '{', '}', '|'}
  }

  /** The trigger with a backslash put before every escaped character. */
  function Escape(key: string): string
  {
    if key == [] then []
    else (if IsEscaped(key[0]) then ['\\', key[0]] else [key[0]]) + Escape(key[1..])
  }

  function Prepend(c: char, rest: Option<string>): Option<string>
  {
    if rest.Some? then Some([c] + rest.value) else None
  }

  /**
    The literal text a pattern stands for when it uses no regular-expression
    operator: every character other than a special one stands for itself and a
    backslash before an escaped character stands for that character. Any other
    pattern gives None.
  */
  function LiteralOf(p: string): Option<string>
  {
    if p == [] then Some([])
    else if p[0] == '\\' then
      if |p| >= 2 && IsEscaped(p[1]) then Prepend(p[1], LiteralOf(p[2..])) else None
    else if IsSyntaxCharacter(p[0]) then None
    else Prepend(p[0], LiteralOf(p[1..]))
  }

  /** Escaping is sound: the escaped trigger, read as a pattern, is exactly the trigger. */
  lemma {:induction false} LiteralOfEscape(key: string)
    ensures LiteralOf(Escape(key)) == Some(key)
  {
    if key != [] {
      var c := key[0];
      LiteralOfEscape(key[1..]);
      if IsEscaped(c) {
        assert Escape(key)[2..] == Escape(key[1..]);
      } else {
        assert Escape(key)[1..] == Escape(key[1..]);
      }
      assert [c] + key[1..] == key;
    }
  }

  /** The pattern a snippet's trigger is matched with. */
  function PatternOf(s: Snippet): string
  {
    if s.regex then s.key else Escape(s.key)
  }

  /**
    The capture of `.*(pattern)$` on the buffer, or None when it does not compile.
    When the pattern stands for a literal, the expression compiles, matches exactly
    when the buffer ends with the literal (the leading `.*` can start matching at
    any position) and captures the literal; any other pattern is left to the engine.
  */
  function TailCapture(pattern: string, buffer: string, engine: RegexEngine): Option<string>
  {
    match LiteralOf(pattern)
    case Some(lit) => Some(if IsSuffix(lit, buffer) then lit else [])
    case None => engine(pattern, buffer)
  }

  /**
    What a snippet's pattern does on the buffer: None when it does not compile,
    otherwise the text it matches at the end of the buffer, empty meaning no match.
  */
  function Capture(s: Snippet, buffer: string, engine: RegexEngine): Option<string>
  {
    TailCapture(PatternOf(s), buffer, engine)
  }

  /** The snippet's pattern compiles and matches nothing. */
  predicate Misses(s: Snippet, buffer: string, engine: RegexEngine)
  {
    Capture(s, buffer, engine) == Some([])
  }

  /**
    A literal snippet's pattern always compiles; it matches exactly when its
    non-empty trigger ends the buffer, case and all, and then the matched text is
    the trigger itself.
  */
  lemma LiteralSnippetCapture(s: Snippet, buffer: string, engine: RegexEngine)
    requires !s.regex
    ensures Capture(s, buffer, engine).Some?
    ensures Capture(s, buffer, engine).value != [] <==> s.key != [] && IsSuffix(s.key, buffer)
    ensures Capture(s, buffer, engine).value != [] ==> Capture(s, buffer, engine).value == s.key
  {
    LiteralOfEscape(s.key);
  }

  /** An engine that, like `.*(…)$`, only ever captures text that ends the buffer. */
  ghost predicate TailAnchored(engine: RegexEngine)
  {
    forall pattern, buffer :: engine(pattern, buffer).Some? ==> IsSuffix(engine(pattern, buffer).value, buffer)
  }

  /** Every match, literal or not, is a suffix of the buffer. */
  lemma CaptureIsSuffix(s: Snippet, buffer: string, engine: RegexEngine)
    requires TailAnchored(engine)
    requires Capture(s, buffer, engine).Some?
    ensures IsSuffix(Capture(s, buffer, engine).value, buffer)
  {
  }

  /**
    The outcome of the in-order search: the first snippet that matches with its
    matched text, no match at all, or the position of a pattern that threw.
  */
  datatype Scan = Found(index: nat, text: string) | NotFound | Aborted(index: nat)

  /**
    The search from position `from` on. It stops at the first snippet whose pattern
    does not compile or matches; every snippet before that one in the range
    compiles and misses, and no stop means every snippet in the range misses.
  */
  function FirstMatchFrom(snippets: seq<Snippet>, from: nat, buffer: string, engine: RegexEngine): (r: Scan)
    requires from <= |snippets|
    decreases |snippets| - from
    ensures r.Found? ==> from <= r.index < |snippets|
    ensures r.Found? ==> Capture(snippets[r.index], buffer, engine) == Some(r.text) && r.text != []
    ensures r.Aborted? ==> from <= r.index < |snippets| && Capture(snippets[r.index], buffer, engine).None?
    ensures !r.NotFound? ==> forall j :: from <= j < r.index ==> Misses(snippets[j], buffer, engine)
    ensures r.NotFound? <==> forall j :: from <= j < |snippets| ==> Misses(snippets[j], buffer, engine)
  {
    if from == |snippets| then NotFound
    else
      match Capture(snippets[from], buffer, engine)
      case None => Aborted(from)
      case Some(text) =>
        if text != [] then Found(from, text) else FirstMatchFrom(snippets, from + 1, buffer, engine)
  }

  function FirstMatch(snippets: seq<Snippet>, buffer: string, engine: RegexEngine): Scan
  {
    FirstMatchFrom(snippets, 0, buffer, engine)
  }

  /** One step of the in-order search: it stops at a snippet or passes on to the next. */
  lemma FirstMatchStep(snippets: seq<Snippet>, i: nat, buffer: string, engine: RegexEngine)
    requires i < |snippets|
    ensures var capture := TailCapture(PatternOf(snippets[i]), buffer, engine);
      FirstMatchFrom(snippets, i, buffer, engine)
        == if capture.None? then Aborted(i)
           else if capture.value != [] then Found(i, capture.value)
           else FirstMatchFrom(snippets, i + 1, buffer, engine)
  {
  }

  /**
    Of two snippets that both match, the later one is never expanded: the search
    stops at the earlier one or before it, on a match or on a pattern that threw.
  */
  lemma EarlierSnippetWins(snippets: seq<Snippet>, buffer: string, engine: RegexEngine, i: nat, j: nat)
    requires i < j < |snippets|
    requires Capture(snippets[i], buffer, engine).Some? && Capture(snippets[i], buffer, engine).value != []
    requires Capture(snippets[j], buffer, engine).Some? && Capture(snippets[j], buffer, engine).value != []
    ensures !FirstMatch(snippets, buffer, engine).NotFound?
    ensures FirstMatch(snippets, buffer, engine).Found? ==> FirstMatch(snippets, buffer, engine).index <= i
    ensures FirstMatch(snippets, buffer, engine).Aborted? ==> FirstMatch(snippets, buffer, engine).index < i
  {
    var r := FirstMatch(snippets, buffer, engine);
    assert !Misses(snippets[i], buffer, engine);
    assert !r.NotFound?;
    assert r.Found? ==> r.index <= i;
    assert r.Aborted? ==> r.index < i;
  }

  /**
    Two literal snippets whose triggers both end the buffer: the earlier one or one
    before it is expanded, unless a pattern before it throws; the later one never.
  */
  lemma EarlierLiteralWins(snippets: seq<Snippet>, buffer: string, engine: RegexEngine, i: nat, j: nat)
    requires i < j < |snippets|
    requires !snippets[i].regex && !snippets[j].regex
    requires snippets[i].key != [] && IsSuffix(snippets[i].key, buffer)
    requires snippets[j].key != [] && IsSuffix(snippets[j].key, buffer)
    ensures !FirstMatch(snippets, buffer, engine).NotFound?
    ensures FirstMatch(snippets, buffer, engine).Found? ==> FirstMatch(snippets, buffer, engine).index <= i
    ensures FirstMatch(snippets, buffer, engine).Aborted? ==>
      FirstMatch(snippets, buffer, engine).index < i && snippets[FirstMatch(snippets, buffer, engine).index].regex
  {
    LiteralSnippetCapture(snippets[i], buffer, engine);
    LiteralSnippetCapture(snippets[j], buffer, engine);
    var r := FirstMatch(snippets, buffer, engine);
    if r.Aborted? && !snippets[r.index].regex {
      LiteralSnippetCapture(snippets[r.index], buffer, engine);
    }
  }

  /** Literal snippets never throw, so a search over them alone never aborts. */
  lemma {:induction false} LiteralsNeverAbort(snippets: seq<Snippet>, from: nat, buffer: string, engine: RegexEngine)
    requires from <= |snippets|
    requires forall k :: 0 <= k < |snippets| ==> !snippets[k].regex
    ensures !FirstMatchFrom(snippets, from, buffer, engine).Aborted?
    decreases |snippets| - from
  {
    if from < |snippets| {
      LiteralSnippetCapture(snippets[from], buffer, engine);
      LiteralsNeverAbort(snippets, from + 1, buffer, engine);
    }
  }

  /**
    A pattern that throws disables every snippet after it: if the snippets before
    it all miss, the search aborts there, whatever the later snippets would match.
  */
  lemma BadPatternStopsSearch(snippets: seq<Snippet>, buffer: string, engine: RegexEngine, k: nat)
    requires k < |snippets| && Capture(snippets[k], buffer, engine).None?
    requires forall j :: 0 <= j < k ==> Misses(snippets[j], buffer, engine)
    ensures FirstMatch(snippets, buffer, engine) == Aborted(k)
  {
  }

  /**
    The "only if" half of LiteralSnippetCapture: a literal trigger that does not
    end the buffer never matches, wherever else in the buffer it occurs.
  */
  lemma NonSuffixDoesNotMatch(s: Snippet, buffer: string, engine: RegexEngine)
    requires !s.regex && !IsSuffix(s.key, buffer)
    ensures Misses(s, buffer, engine)
  {
    LiteralSnippetCapture(s, buffer, engine);
  }
}

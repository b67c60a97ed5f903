/**
 * Rendering a command line for a POSIX shell, against the shell's own token recognition (POSIX.1-2017
 * Shell Command Language, sections 2.2.1, 2.2.2 and 2.3). Strings are sequences of UTF-16 code units.
 */
module Shell {
  import opened Common

  type Code = n: nat | n < 0x1_0000
  type Text = seq<Code>

  const TAB: Code := 9
  const NEWLINE: Code := 10
  const RETURN: Code := 13
  const SPACE: Code := 32
  const HASH: Code := 35
  const QUOTE: Code := 39
  const MINUS: Code := 45
  const EQUALS: Code := 61
  const BACKSLASH: Code := 92
  const TILDE: Code := 126
  const REPLACEMENT: Code := 0xFFFD

  /** The word "env" and the option "-u". */
  const ENV: Text := [101, 110, 118]
  const UNSET: Text := [MINUS, 117]

  // ---------------------------------------------------------------- rendering

  /** Control characters other than tab, newline and carriage return. */
  predicate Control(c: Code) {
    (c <= 0x1f && c != TAB && c != NEWLINE && c != RETURN) || 0x7f <= c <= 0x9f
  }

  function Cleaned(c: Code): Code {
    if Control(c) then REPLACEMENT else c
  }

  function Sanitized(s: Text): (r: Text)
    ensures |r| == |s| && forall i :: 0 <= i < |s| ==> r[i] == Cleaned(s[i])
  {
    seq(|s|, i requires 0 <= i < |s| => Cleaned(s[i]))
  }

  /** `sanitizeRenderedArgument`. */
  method SanitizeRenderedArgument(value: Text) returns (out: Text)
    ensures out == Sanitized(value)
  {
    out := [];
    for i := 0 to |value|
      invariant out == Sanitized(value)[..i]
    {
      out := out + [if Control(value[i]) then REPLACEMENT else value[i]];
    }
  }

  /** The characters the allow-list leaves bare: letters, digits and `_+=:,./-`. */
  predicate Safe(c: Code) {
    || 48 <= c <= 57 || 65 <= c <= 90 || 97 <= c <= 122
    || c == 95 || c == 43 || c == EQUALS || c == 58 || c == 44 || c == 46 || c == 47 || c == MINUS
  }

  predicate AllSafe(s: Text) {
    forall i :: 0 <= i < |s| ==> Safe(s[i])
  }

  /** Each embedded quote closes, is escaped, and reopens. */
  function Escaped(s: Text): Text {
    if |s| == 0 then []
    else Escaped(s[..|s| - 1])
         + if s[|s| - 1] == QUOTE then [QUOTE, BACKSLASH, QUOTE, QUOTE] else [s[|s| - 1]]
  }

  /** `quoteArg` for `sh`. */
  function QuoteArg(arg: Text): Text {
    var clean := Sanitized(arg);
    if |clean| > 0 && AllSafe(clean) then clean else [QUOTE] + Escaped(clean) + [QUOTE]
  }

  function Join(pieces: seq<Text>): Text {
    if |pieces| == 0 then []
    else if |pieces| == 1 then pieces[0]
    else Join(pieces[..|pieces| - 1]) + [SPACE] + pieces[|pieces| - 1]
  }

  /** One variable of an environment: set to a value, or removed. */
  datatype Variable = Variable(name: Text, value: Option<Text>)

  datatype Invocation = Invocation(command: Text, args: seq<Text>, env: seq<Variable>)

  function Unset(env: seq<Variable>): seq<Text> {
    if |env| == 0 then []
    else Unset(env[..|env| - 1]) + if env[|env| - 1].value.None? then [env[|env| - 1].name] else []
  }

  /** `NAME=value` of every variable that is set. */
  function Settings(env: seq<Variable>): seq<Text> {
    if |env| == 0 then []
    else
      var last := env[|env| - 1];
      Settings(env[..|env| - 1]) + if last.value.Some? then [last.name + [EQUALS] + last.value.value] else []
  }

  function Quoted(xs: seq<Text>): (r: seq<Text>)
    ensures |r| == |xs| && forall i :: 0 <= i < |xs| ==> r[i] == QuoteArg(xs[i])
  {
    seq(|xs|, i requires 0 <= i < |xs| => QuoteArg(xs[i]))
  }

  /** `-u NAME`, the name bare. */
  function UnsetPieces(names: seq<Text>): (r: seq<Text>)
    ensures |r| == |names| && forall i :: 0 <= i < |names| ==> r[i] == UNSET + [SPACE] + names[i]
  {
    seq(|names|, i requires 0 <= i < |names| => UNSET + [SPACE] + names[i])
  }

  /** `renderCommand` for `sh`. */
  function Render(inv: Invocation): Text {
    var line := Join(Quoted([inv.command] + inv.args));
    if |Unset(inv.env)| == 0 && |Settings(inv.env)| == 0 then line
    else Join([ENV] + UnsetPieces(Unset(inv.env)) + Quoted(Settings(inv.env)) + [line])
  }

  // ---------------------------------------------------------------- the shell's side

  /** Characters with a meaning of their own wherever they stand unquoted, apart from blanks and quoting. */
  predicate Special(c: Code) {
    // | & ; < > ( ) $ ` " newline * ? [
    c in {124, 38, 59, 60, 62, 40, 41, 36, 96, 34, NEWLINE, 42, 63, 91}
  }

  predicate Blank(c: Code) {
    c == SPACE || c == TAB
  }

  datatype Mode = Plain | InQuotes | AfterBackslash

  /** Words recognized so far, the word being read if any, and how the next character is read. */
  datatype Scan = Scan(words: seq<Text>, word: Option<Text>, mode: Mode, ok: bool)

  const START := Scan([], None, Plain, true)

  function Grown(s: Scan, c: Code): Scan {
    s.(word := Some((if s.word.Some? then s.word.value else []) + [c]),
       mode := if s.mode == InQuotes then InQuotes else Plain)
  }

  function Begun(s: Scan, mode: Mode): Scan {
    s.(word := if s.word.Some? then s.word else Some([]), mode := mode)
  }

  /**
   * Token recognition and quote removal, one character at a time. Anything the shell would expand,
   * take for an operator or for a comment ends the attempt.
   */
  function Feed(s: Scan, c: Code): Scan {
    if !s.ok then s
    else match s.mode
      case InQuotes => if c == QUOTE then s.(mode := Plain) else Grown(s, c)
      case AfterBackslash => if c == NEWLINE then s.(mode := Plain) else Grown(s, c)
      case Plain =>
        if c == QUOTE then Begun(s, InQuotes)
        else if c == BACKSLASH then s.(mode := AfterBackslash)
        else if Special(c) || (s.word.None? && (c == HASH || c == TILDE)) then s.(ok := false)
        else if Blank(c) then if s.word.None? then s else s.(words := s.words + [s.word.value], word := None)
        else Grown(s, c)
  }

  function FeedAll(s: Scan, text: Text): Scan {
    if |text| == 0 then s else Feed(FeedAll(s, text[..|text| - 1]), text[|text| - 1])
  }

  /** The words of a line, or nothing when it is not a plain list of literal words. */
  function Tokenize(line: Text): Option<seq<Text>> {
    var s := FeedAll(START, line);
    if !s.ok || s.mode != Plain then None
    else Some(s.words + if s.word.Some? then [s.word.value] else [])
  }

  // ---------------------------------------------------------------- one piece

  lemma {:induction false} FeedConcat(s: Scan, x: Text, y: Text)
    ensures FeedAll(s, x + y) == FeedAll(FeedAll(s, x), y)
  {
    hide Feed;
    if |y| == 0 {
      assert x + y == x;
    } else {
      assert (x + y)[..|x + y| - 1] == x + y[..|y| - 1];
      FeedConcat(s, x, y[..|y| - 1]);
    }
  }

  lemma FeedOne(s: Scan, c: Code)
    ensures FeedAll(s, [c]) == Feed(s, c)
  {
    assert [c][..0] == [];
    assert FeedAll(s, []) == s;
  }

  /** Between words. */
  predicate Ready(s: Scan) {
    s.ok && s.word.None? && s.mode == Plain
  }

  /** Characters a bare word may hold without being read as anything else. */
  predicate Ordinary(c: Code) {
    !Special(c) && !Blank(c) && c != QUOTE && c != BACKSLASH
  }

  /** A name that survives bare: not empty, all ordinary, and not opening a comment or a home directory. */
  predicate PlainName(name: Text) {
    |name| > 0 && (forall i :: 0 <= i < |name| ==> Ordinary(name[i])) && name[0] != HASH && name[0] != TILDE
  }

  lemma OrdinaryFed(s: Scan, c: Code)
    requires s.ok && s.mode == Plain && Ordinary(c) && (s.word.None? ==> c != HASH && c != TILDE)
    ensures Feed(s, c) == Grown(s, c)
  {
  }

  lemma {:induction false} PlainFed(s: Scan, name: Text)
    requires Ready(s) && PlainName(name)
    ensures FeedAll(s, name) == s.(word := Some(name))
  {
    hide Ordinary, Feed;
    var init, last := name[..|name| - 1], name[|name| - 1];
    assert name == init + [last];
    if |init| > 0 {
      PlainFed(s, init);
      OrdinaryFed(s.(word := Some(init)), last);
    } else {
      assert FeedAll(s, init) == s;
      assert name == [last];
      OrdinaryFed(s, last);
    }
  }

  lemma SafeIsPlain(text: Text)
    requires |text| > 0 && AllSafe(text)
    ensures PlainName(text)
  {
    forall i | 0 <= i < |text| ensures Ordinary(text[i]) && text[i] != HASH && text[i] != TILDE {
      assert Safe(text[i]);
    }
    hide Ordinary;
  }

  lemma {:induction false} EscapedFed(s: Scan, text: Text)
    requires s.ok && s.mode == InQuotes && s.word.Some?
    ensures FeedAll(s, Escaped(text)) == s.(word := Some(s.word.value + text))
  {
    if |text| == 0 {
      assert s.word.value + text == s.word.value;
    } else {
      var init, last := text[..|text| - 1], text[|text| - 1];
      EscapedFed(s, init);
      var before := s.(word := Some(s.word.value + init));
      assert s.word.value + text == s.word.value + init + [last];
      if last == QUOTE {
        FeedConcat(s, Escaped(init), [QUOTE, BACKSLASH, QUOTE, QUOTE]);
        FeedFour(before);
      } else {
        FeedConcat(s, Escaped(init), [last]);
        FeedOne(before, last);
      }
    }
  }

  lemma FeedFour(s: Scan)
    requires s.ok && s.mode == InQuotes && s.word.Some?
    ensures FeedAll(s, [QUOTE, BACKSLASH, QUOTE, QUOTE]) == s.(word := Some(s.word.value + [QUOTE]))
  {
    assert [QUOTE, BACKSLASH, QUOTE, QUOTE] == ([QUOTE] + [BACKSLASH]) + ([QUOTE] + [QUOTE]);
    FeedConcat(s, [QUOTE] + [BACKSLASH], [QUOTE] + [QUOTE]);
    FeedConcat(s, [QUOTE], [BACKSLASH]);
    FeedOne(s, QUOTE);
    var s1 := Feed(s, QUOTE);
    FeedOne(s1, BACKSLASH);
    var s2 := Feed(s1, BACKSLASH);
    FeedConcat(s2, [QUOTE], [QUOTE]);
    FeedOne(s2, QUOTE);
    FeedOne(Feed(s2, QUOTE), QUOTE);
  }

  /** A quoted argument is read as one word, the sanitized argument itself. */
  lemma {:induction false} ArgumentFed(s: Scan, arg: Text)
    requires Ready(s)
    ensures FeedAll(s, QuoteArg(arg)) == s.(word := Some(Sanitized(arg)))
  {
    hide FeedAll, Escaped, PlainName, Safe;
    var clean := Sanitized(arg);
    if |clean| > 0 && AllSafe(clean) {
      SafeIsPlain(clean);
      PlainFed(s, clean);
    } else {
      FeedConcat(s, [QUOTE] + Escaped(clean), [QUOTE]);
      FeedConcat(s, [QUOTE], Escaped(clean));
      FeedOne(s, QUOTE);
      var inside := Feed(s, QUOTE);
      EscapedFed(inside, clean);
      assert [] + clean == clean;
      FeedOne(inside.(word := Some(clean)), QUOTE);
    }
  }

  // ---------------------------------------------------------------- pieces in a row

  /** Between words, or at the end of one: where a blank or the end of the line is harmless. */
  function Settled(s: Scan): seq<Text> {
    s.words + if s.word.Some? then [s.word.value] else []
  }

  /** A piece that is read as its words from between words on, and leaves off at the end of the last. */
  ghost predicate Reads(piece: Text, words: seq<Text>) {
    |words| > 0 && forall s: Scan :: Ready(s) ==>
      FeedAll(s, piece) == s.(words := s.words + words[..|words| - 1], word := Some(words[|words| - 1]))
  }

  lemma ArgumentReads(arg: Text)
    ensures Reads(QuoteArg(arg), [Sanitized(arg)])
  {
    forall s: Scan | Ready(s)
      ensures FeedAll(s, QuoteArg(arg))
              == s.(words := s.words + [Sanitized(arg)][..0], word := Some([Sanitized(arg)][0]))
    {
      ArgumentFed(s, arg);
      assert s.words + [Sanitized(arg)][..0] == s.words;
    }
  }

  /** Two pieces with a blank between them are read one after the other. */
  lemma {:induction false} ReadsTwo(x: Text, xs: seq<Text>, y: Text, ys: seq<Text>)
    requires Reads(x, xs) && Reads(y, ys)
    ensures Reads(x + [SPACE] + y, xs + ys)
  {
    hide FeedAll;
    forall s: Scan | Ready(s)
      ensures FeedAll(s, x + [SPACE] + y)
              == s.(words := s.words + (xs + ys)[..|xs + ys| - 1], word := Some((xs + ys)[|xs + ys| - 1]))
    {
      FeedConcat(s, x + [SPACE], y);
      FeedConcat(s, x, [SPACE]);
      var after := FeedAll(s, x);
      FeedOne(after, SPACE);
      var gap := Feed(after, SPACE);
      assert gap == s.(words := s.words + xs, word := None) by {
        assert xs == xs[..|xs| - 1] + [xs[|xs| - 1]];
        assert s.words + xs[..|xs| - 1] + [xs[|xs| - 1]] == s.words + xs;
      }
      assert Ready(gap);
      assert (xs + ys)[..|xs + ys| - 1] == xs + ys[..|ys| - 1];
      assert s.words + (xs + ys[..|ys| - 1]) == s.words + xs + ys[..|ys| - 1];
    }
  }

  function Concat(ws: seq<seq<Text>>): seq<Text> {
    if |ws| == 0 then [] else Concat(ws[..|ws| - 1]) + ws[|ws| - 1]
  }

  lemma {:induction false} JoinReads(pieces: seq<Text>, ws: seq<seq<Text>>)
    requires |pieces| == |ws| > 0 && forall i :: 0 <= i < |pieces| ==> Reads(pieces[i], ws[i])
    ensures Reads(Join(pieces), Concat(ws))
  {
    hide Reads;
    var init, winit := pieces[..|pieces| - 1], ws[..|ws| - 1];
    if |pieces| == 1 {
      assert winit == [] && Concat(winit) + ws[0] == ws[0];
    } else {
      JoinReads(init, winit);
      ReadsTwo(Join(init), Concat(winit), pieces[|pieces| - 1], ws[|ws| - 1]);
    }
  }

  lemma ReadsTokenizes(line: Text, words: seq<Text>)
    requires Reads(line, words)
    ensures Tokenize(line) == Some(words)
  {
    assert Ready(START);
    assert words == words[..|words| - 1] + [words[|words| - 1]];
    assert [] + words[..|words| - 1] == words[..|words| - 1];
  }

  // ---------------------------------------------------------------- bare names

  lemma PlainReads(name: Text)
    requires PlainName(name)
    ensures Reads(name, [name])
  {
    forall s: Scan | Ready(s) ensures FeedAll(s, name) == s.(words := s.words + [name][..0], word := Some([name][0])) {
      PlainFed(s, name);
      assert s.words + [name][..0] == s.words;
    }
  }

  function Length(words: seq<Text>): nat {
    if |words| == 0 then 0 else Length(words[..|words| - 1]) + |words[|words| - 1]|
  }

  lemma LengthStep(words: seq<Text>, w: Text)
    ensures Length(words + [w]) == Length(words) + |w|
  {
    assert (words + [w])[..|words|] == words;
  }

  /** One character adds at most itself; one with a meaning of its own, outside quotes, adds nothing. */
  lemma FeedGrowth(s: Scan, c: Code)
    requires s.ok
    ensures var t := Feed(s, c);
            && Length(Settled(t)) <= Length(Settled(s)) + 1
            && (t.ok && s.mode == Plain && !Ordinary(c) ==> Length(Settled(t)) <= Length(Settled(s)))
            && (t.mode != Plain ==> s.mode != Plain || !Ordinary(c))
  {
    if s.word.Some? {
      LengthStep(s.words, s.word.value);
      LengthStep(s.words, s.word.value + [c]);
    }
    LengthStep(s.words, [c]);
    LengthStep(s.words, []);
    assert s.words + [] == s.words;
    if s.word.Some? { assert (s.words + [s.word.value]) + [] == s.words + [s.word.value]; }
  }

  predicate HoldsSome(text: Text) {
    exists i :: 0 <= i < |text| && !Ordinary(text[i])
  }

  lemma HoldsStep(text: Text)
    requires |text| > 0
    ensures HoldsSome(text) <==> HoldsSome(text[..|text| - 1]) || !Ordinary(text[|text| - 1])
  {
    hide Ordinary;
    var init := text[..|text| - 1];
    if HoldsSome(init) {
      var i :| 0 <= i < |init| && !Ordinary(init[i]);
      assert text[i] == init[i];
    }
    if HoldsSome(text) {
      var i :| 0 <= i < |text| && !Ordinary(text[i]);
      if i < |init| { assert init[i] == text[i]; }
    }
  }

  /** What has been read so far never exceeds what was fed, and falls short of it once a quote was. */
  lemma {:induction false} Shrinks(text: Text)
    ensures var s := FeedAll(START, text);
            s.ok ==>
              && Length(Settled(s)) <= |text|
              && (s.mode != Plain ==> HoldsSome(text))
              && (HoldsSome(text) ==> Length(Settled(s)) < |text|)
  {
    hide Ordinary, HoldsSome, Feed;
    if |text| == 0 {
      assert Settled(START) == [];
      NothingHeld(text);
    } else {
      var init, last := text[..|text| - 1], text[|text| - 1];
      Shrinks(init);
      HoldsStep(text);
      var s := FeedAll(START, init);
      if s.ok { FeedGrowth(s, last); } else { StaysRefused(s, last); }
    }
  }

  lemma NothingHeld(text: Text)
    requires |text| == 0
    ensures !HoldsSome(text)
  {
  }

  lemma StaysRefused(s: Scan, c: Code)
    requires !s.ok
    ensures !Feed(s, c).ok
  {
  }

  /** A bare name is read back as itself exactly when it is plain. */
  lemma BareNameSurvivesExactlyWhen(name: Text)
    ensures Tokenize(name) == Some([name]) <==> PlainName(name)
  {
    hide Feed, FeedAll, Ordinary, Reads, Length;
    if PlainName(name) {
      PlainReads(name);
      ReadsTokenizes(name, [name]);
    } else if HoldsSome(name) {
      Shrinks(name);
      LengthStep([], name);
      assert [] + [name] == [name];
      EmptyLength();
    } else if |name| > 0 {
      FirstRefused(name);
    } else {
      EmptyFed(name);
    }
  }

  lemma EmptyLength()
    ensures Length([]) == 0
  {
  }

  lemma EmptyFed(text: Text)
    requires |text| == 0
    ensures FeedAll(START, text) == START
  {
  }

  lemma {:induction false} FirstRefused(text: Text)
    requires |text| > 0 && (text[0] == HASH || text[0] == TILDE)
    ensures !FeedAll(START, text).ok
  {
    var init := text[..|text| - 1];
    if |init| > 0 {
      FirstRefused(init);
    } else {
      assert FeedAll(START, init) == START;
    }
  }

  // ---------------------------------------------------------------- the whole line

  function Sanitizeds(xs: seq<Text>): (r: seq<Text>)
    ensures |r| == |xs| && forall i :: 0 <= i < |xs| ==> r[i] == Sanitized(xs[i])
  {
    seq(|xs|, i requires 0 <= i < |xs| => Sanitized(xs[i]))
  }

  function UnsetWords(names: seq<Text>): seq<Text> {
    if |names| == 0 then [] else UnsetWords(names[..|names| - 1]) + [UNSET, names[|names| - 1]]
  }

  /** The words an invocation means: the environment prefix if any, the command, each argument. */
  function WordsOf(inv: Invocation): seq<Text> {
    (if |Unset(inv.env)| == 0 && |Settings(inv.env)| == 0 then []
     else [ENV] + UnsetWords(Unset(inv.env)) + Sanitizeds(Settings(inv.env)))
    + Sanitizeds([inv.command] + inv.args)
  }

  function Singles(xs: seq<Text>): (r: seq<seq<Text>>)
    ensures |r| == |xs| && forall i :: 0 <= i < |xs| ==> r[i] == [xs[i]]
  {
    seq(|xs|, i requires 0 <= i < |xs| => [xs[i]])
  }

  lemma {:induction false} ConcatSingles(xs: seq<Text>)
    ensures Concat(Singles(xs)) == xs
  {
    if |xs| > 0 {
      ConcatSingles(xs[..|xs| - 1]);
      assert Singles(xs)[..|xs| - 1] == Singles(xs[..|xs| - 1]);
      assert xs == xs[..|xs| - 1] + [xs[|xs| - 1]];
    }
  }

  lemma {:induction false} ConcatTwo(x: seq<seq<Text>>, y: seq<seq<Text>>)
    ensures Concat(x + y) == Concat(x) + Concat(y)
  {
    if |y| == 0 {
      assert x + y == x;
    } else {
      assert (x + y)[..|x + y| - 1] == x + y[..|y| - 1];
      ConcatTwo(x, y[..|y| - 1]);
    }
  }

  function UnsetPairs(names: seq<Text>): (r: seq<seq<Text>>)
    ensures |r| == |names| && forall i :: 0 <= i < |names| ==> r[i] == [UNSET, names[i]]
  {
    seq(|names|, i requires 0 <= i < |names| => [UNSET, names[i]])
  }

  lemma {:induction false} ConcatPairs(names: seq<Text>)
    ensures Concat(UnsetPairs(names)) == UnsetWords(names)
  {
    if |names| > 0 {
      ConcatPairs(names[..|names| - 1]);
      assert UnsetPairs(names)[..|names| - 1] == UnsetPairs(names[..|names| - 1]);
    }
  }

  lemma {:induction false} ArgumentsRead(xs: seq<Text>)
    requires |xs| > 0
    ensures Reads(Join(Quoted(xs)), Sanitizeds(xs))
  {
    hide Reads, Join;
    forall i | 0 <= i < |xs| ensures Reads(Quoted(xs)[i], Singles(Sanitizeds(xs))[i]) {
      ArgumentReads(xs[i]);
    }
    JoinReads(Quoted(xs), Singles(Sanitizeds(xs)));
    ConcatSingles(Sanitizeds(xs));
  }

  lemma UnsetReads(name: Text)
    requires PlainName(name)
    ensures Reads(UNSET + [SPACE] + name, [UNSET, name])
  {
    hide Reads, PlainName;
    FixedWords();
    PlainReads(UNSET);
    PlainReads(name);
    ReadsTwo(UNSET, [UNSET], name, [name]);
    assert [UNSET] + [name] == [UNSET, name];
  }

  lemma FixedWords()
    ensures PlainName(ENV) && PlainName(UNSET)
  {
  }

  /**
   * The rendered line is read by the shell as exactly the words it stands for, one per element of
   * the argument vector, whatever the command, the arguments and the values hold; names of removed
   * variables are written bare and have to be plain.
   */
  lemma {:induction false} RenderedLineReadsBack(inv: Invocation)
    requires forall i :: 0 <= i < |Unset(inv.env)| ==> PlainName(Unset(inv.env)[i])
    ensures Tokenize(Render(inv)) == Some(WordsOf(inv))
  {
    hide Reads, Join, Concat, PlainName, Tokenize, UnsetWords;
    var unset, settings, argv := Unset(inv.env), Settings(inv.env), [inv.command] + inv.args;
    var line := Join(Quoted(argv));
    ArgumentsRead(argv);
    if |unset| == 0 && |settings| == 0 {
      assert [] + Sanitizeds(argv) == Sanitizeds(argv);
      ReadsTokenizes(line, Sanitizeds(argv));
    } else {
      var pieces := [ENV] + UnsetPieces(unset) + Quoted(settings) + [line];
      var ws := [[ENV]] + UnsetPairs(unset) + Singles(Sanitizeds(settings)) + [Sanitizeds(argv)];
      PiecesRead(unset, settings, argv);
      JoinReads(pieces, ws);
      WordsAddUp(unset, settings, argv);
      ReadsTokenizes(Join(pieces), Concat(ws));
    }
  }

  lemma {:induction false} PiecesRead(unset: seq<Text>, settings: seq<Text>, argv: seq<Text>)
    requires |argv| > 0 && forall i :: 0 <= i < |unset| ==> PlainName(unset[i])
    ensures var pieces := [ENV] + UnsetPieces(unset) + Quoted(settings) + [Join(Quoted(argv))];
            var ws := [[ENV]] + UnsetPairs(unset) + Singles(Sanitizeds(settings)) + [Sanitizeds(argv)];
            |pieces| == |ws| && forall i :: 0 <= i < |pieces| ==> Reads(pieces[i], ws[i])
  {
    hide Reads, Join, PlainName, QuoteArg, Sanitized;
    FixedWords();
    PlainReads(ENV);
    ArgumentsRead(argv);
    forall i | 0 <= i < |unset| ensures Reads(UnsetPieces(unset)[i], UnsetPairs(unset)[i]) {
      UnsetReads(unset[i]);
    }
    forall i | 0 <= i < |settings| ensures Reads(Quoted(settings)[i], Singles(Sanitizeds(settings))[i]) {
      ArgumentReads(settings[i]);
    }
  }

  lemma {:induction false} WordsAddUp(unset: seq<Text>, settings: seq<Text>, argv: seq<Text>)
    ensures Concat([[ENV]] + UnsetPairs(unset) + Singles(Sanitizeds(settings)) + [Sanitizeds(argv)])
            == [ENV] + UnsetWords(unset) + Sanitizeds(settings) + Sanitizeds(argv)
  {
    hide Sanitizeds, Sanitized;
    ConcatTwo([[ENV]] + UnsetPairs(unset) + Singles(Sanitizeds(settings)), [Sanitizeds(argv)]);
    ConcatTwo([[ENV]] + UnsetPairs(unset), Singles(Sanitizeds(settings)));
    ConcatTwo([[ENV]], UnsetPairs(unset));
    ConcatPairs(unset);
    ConcatSingles(Sanitizeds(settings));
    ConcatOne([ENV]);
    ConcatOne(Sanitizeds(argv));
  }

  lemma ConcatOne(w: seq<Text>)
    ensures Concat([w]) == w
  {
    assert [w][..0] == [];
    assert Concat([]) == [];
    assert [] + w == w;
  }

  // ---------------------------------------------------------------- names that are not plain

  /** What config load guarantees of a variable name as far as blanks go (it refuses all white space). */
  predicate Unbroken(name: Text) {
    |name| > 0 && forall i :: 0 <= i < |name| ==> !Blank(name[i]) && name[i] != NEWLINE
  }

  function WordOf(s: Scan): Text {
    if s.word.Some? then s.word.value else []
  }

  /** Reading of an unbroken text begun between words: no word ends, and one was begun or is about to be. */
  predicate OneWord(s: Scan, t: Scan) {
    t.ok ==> t.words == s.words && (t.word.Some? || t.mode == AfterBackslash)
  }

  /** The word falls short of the text as soon as one of its characters is not ordinary. */
  predicate FallsShort(t: Scan, text: Text) {
    t.ok ==> && |WordOf(t)| <= |text|
             && (HoldsSome(text) ==> |WordOf(t)| < |text|)
             && (!HoldsSome(text) ==> t.mode == Plain)
  }

  lemma FeedWithin(s: Scan, t: Scan, c: Code)
    requires OneWord(s, t) || t == s
    requires !Blank(c) && c != NEWLINE
    requires t == s ==> Ready(s)
    ensures OneWord(s, Feed(t, c))
    ensures Feed(t, c).ok ==> t.ok && |WordOf(Feed(t, c))| <= |WordOf(t)| + 1
    ensures Feed(t, c).ok && t.mode == Plain && !Ordinary(c) ==> |WordOf(Feed(t, c))| <= |WordOf(t)|
    ensures Feed(t, c).ok && t.mode == Plain && Ordinary(c) ==> Feed(t, c).mode == Plain
  {
  }

  lemma {:induction false} UnbrokenFed(s: Scan, text: Text)
    requires Ready(s) && Unbroken(text)
    ensures OneWord(s, FeedAll(s, text)) && FallsShort(FeedAll(s, text), text)
  {
    hide Ordinary, HoldsSome, Feed, OneWord, Blank;
    var init, last := text[..|text| - 1], text[|text| - 1];
    HoldsStep(text);
    if |init| > 0 {
      UnbrokenFed(s, init);
    } else {
      NothingHeld(init);
      NothingFed(s, init);
    }
    FeedWithin(s, FeedAll(s, init), last);
  }

  lemma NothingFed(s: Scan, text: Text)
    requires |text| == 0
    ensures FeedAll(s, text) == s
  {
  }

  /** A word at place i is already something else than the name, or has swallowed the blank after it. */
  predicate Astray(s: Scan, i: nat, name: Text) {
    s.ok ==> || (i < |s.words| && s.words[i] != name)
             || (i == |s.words| && SPACE in WordOf(s))
  }

  /** The blank after a name that is not plain: the name's word is lost. */
  lemma LostAtTheBlank(s: Scan, name: Text)
    requires Ready(s) && Unbroken(name) && !PlainName(name)
    ensures Astray(FeedAll(s, name + [SPACE]), |s.words|, name)
  {
    hide FeedAll, Ordinary, HoldsSome;
    var t := FeedAll(s, name);
    FeedConcat(s, name, [SPACE]);
    FeedOne(t, SPACE);
    UnbrokenFed(s, name);
    if !HoldsSome(name) {
      AllOrdinary(name);
      FirstRefusedFrom(s, name);
    }
  }

  lemma AllOrdinary(name: Text)
    requires |name| > 0 && !HoldsSome(name) && !PlainName(name)
    ensures name[0] == HASH || name[0] == TILDE
  {
  }

  lemma {:induction false} FirstRefusedFrom(s: Scan, text: Text)
    requires Ready(s) && |text| > 0 && (text[0] == HASH || text[0] == TILDE)
    ensures !FeedAll(s, text).ok
  {
    var init := text[..|text| - 1];
    if |init| > 0 {
      FirstRefusedFrom(s, init);
    } else {
      NothingFed(s, init);
    }
  }

  lemma AstrayStep(s: Scan, i: nat, name: Text, c: Code)
    requires Astray(s, i, name) && SPACE !in name
    ensures Astray(Feed(s, c), i, name)
  {
  }

  /** Whatever follows on the line never brings the name back. */
  lemma {:induction false} StaysAstray(s: Scan, i: nat, name: Text, rest: Text)
    requires Astray(s, i, name) && SPACE !in name
    ensures Astray(FeedAll(s, rest), i, name)
  {
    hide Feed, Astray;
    if |rest| > 0 {
      StaysAstray(s, i, name, rest[..|rest| - 1]);
      AstrayStep(FeedAll(s, rest[..|rest| - 1]), i, name, rest[|rest| - 1]);
    } else {
      NothingFed(s, rest);
    }
  }

  lemma UnbrokenHasNoSpace(name: Text)
    requires Unbroken(name)
    ensures SPACE !in name
  {
  }

  /** A name that is not plain, after words that were read, is not among the words of the line. */
  lemma {:induction false} BreaksThere(head: Text, words: seq<Text>, name: Text, rest: Text)
    requires Reads(head, words) && Unbroken(name) && !PlainName(name)
    ensures var r := Tokenize(head + [SPACE] + (name + [SPACE]) + rest);
            r.Some? ==> |words| < |r.value| && r.value[|words|] != name
  {
    hide FeedAll, Unbroken, PlainName, Feed, Reads;
    var line := head + [SPACE] + (name + [SPACE]) + rest;
    FeedConcat(START, head + [SPACE] + (name + [SPACE]), rest);
    FeedConcat(START, head + [SPACE], name + [SPACE]);
    ReadyAfter(head, words);
    var s := FeedAll(START, head + [SPACE]);
    LostAtTheBlank(s, name);
    UnbrokenHasNoSpace(name);
    StaysAstray(FeedAll(s, name + [SPACE]), |words|, name, rest);
  }

  lemma ReadyAfter(head: Text, words: seq<Text>)
    requires Reads(head, words)
    ensures FeedAll(START, head + [SPACE]) == Scan(words, None, Plain, true)
  {
    hide FeedAll;
    assert Ready(START);
    FeedConcat(START, head, [SPACE]);
    FeedOne(FeedAll(START, head), SPACE);
    assert [] + words[..|words| - 1] + [words[|words| - 1]] == words;
  }

  lemma {:induction false} JoinSplits(pieces: seq<Text>, m: nat)
    requires 0 < m < |pieces|
    ensures Join(pieces) == Join(pieces[..m]) + [SPACE] + Join(pieces[m..])
  {
    var init, last := pieces[..|pieces| - 1], pieces[|pieces| - 1];
    if m == |pieces| - 1 {
      assert pieces[m..] == [last];
    } else {
      JoinSplits(init, m);
      JoinLast(pieces[m..]);
      assert init[..m] == pieces[..m] && init[m..] == pieces[m..][..|pieces| - m - 1];
    }
  }

  lemma JoinLast(pieces: seq<Text>)
    requires |pieces| > 1
    ensures Join(pieces) == Join(pieces[..|pieces| - 1]) + [SPACE] + pieces[|pieces| - 1]
  {
  }

  lemma {:induction false} UnsetWordAt(names: seq<Text>, j: nat)
    requires j < |names|
    ensures |UnsetWords(names)| == 2 * |names| && UnsetWords(names)[2 * j + 1] == names[j]
  {
    UnsetWordsLength(names[..|names| - 1]);
    if j < |names| - 1 { UnsetWordAt(names[..|names| - 1], j); }
  }

  lemma {:induction false} UnsetWordsLength(names: seq<Text>)
    ensures |UnsetWords(names)| == 2 * |names|
  {
    if |names| > 0 { UnsetWordsLength(names[..|names| - 1]); }
  }

  /** The first name that is not plain. */
  lemma {:induction false} FirstBad(names: seq<Text>) returns (j: nat)
    requires exists i :: 0 <= i < |names| && !PlainName(names[i])
    ensures j < |names| && !PlainName(names[j]) && forall i :: 0 <= i < j ==> PlainName(names[i])
  {
    hide PlainName;
    j := 0;
    while PlainName(names[j])
      invariant j < |names| && (forall i :: 0 <= i < j ==> PlainName(names[i]))
      invariant exists i :: j <= i < |names| && !PlainName(names[i])
      decreases |names| - j
    {
      j := j + 1;
    }
  }

  /** The environment prefix up to the word before the first bad name. */
  lemma {:induction false} HeadReads(unset: seq<Text>, j: nat)
    requires j < |unset| && forall i :: 0 <= i < j ==> PlainName(unset[i])
    ensures Reads(Join([ENV] + UnsetPieces(unset[..j])) + [SPACE] + UNSET, [ENV] + UnsetWords(unset[..j]) + [UNSET])
  {
    hide Reads, Join, PlainName, UnsetWords;
    FixedWords();
    PlainReads(ENV);
    PlainReads(UNSET);
    var names := unset[..j];
    var pieces, ws := [ENV] + UnsetPieces(names), [[ENV]] + UnsetPairs(names);
    forall i | 0 <= i < |pieces| ensures Reads(pieces[i], ws[i]) {
      if i > 0 { UnsetReads(names[i - 1]); }
    }
    JoinReads(pieces, ws);
    ConcatTwo([[ENV]], UnsetPairs(names));
    ConcatOne([ENV]);
    ConcatPairs(names);
    ReadsTwo(Join(pieces), [ENV] + UnsetWords(names), UNSET, [UNSET]);
  }

  /** The line around one removal: what stands before its name, the name, a blank, and the rest. */
  lemma {:induction false} LineAround(pieces: seq<Text>, m: nat, name: Text)
    requires 0 < m < |pieces| - 1 && pieces[m] == UNSET + [SPACE] + name
    ensures Join(pieces)
            == (Join(pieces[..m]) + [SPACE] + UNSET) + [SPACE] + (name + [SPACE]) + Join(pieces[m + 1..])
  {
    JoinSplits(pieces, m);
    JoinSplits(pieces[m..], 1);
    var head, tail := Join(pieces[..m]), Join(pieces[m + 1..]);
    assert pieces[m..][..1] == [pieces[m]] && pieces[m..][1..] == pieces[m + 1..];
    assert Join([pieces[m]]) == pieces[m];
    hide Join;
    Regroup(head, UNSET, name, tail);
  }

  lemma Regroup(head: Text, option: Text, name: Text, tail: Text)
    ensures head + [SPACE] + ((option + [SPACE] + name) + [SPACE] + tail)
            == (head + [SPACE] + option) + [SPACE] + (name + [SPACE]) + tail
  {
  }

  lemma {:induction false} BadNameIsLost(inv: Invocation)
    requires exists i :: 0 <= i < |Unset(inv.env)| && !PlainName(Unset(inv.env)[i])
    requires forall i :: 0 <= i < |Unset(inv.env)| ==> Unbroken(Unset(inv.env)[i])
    ensures Tokenize(Render(inv)) != Some(WordsOf(inv))
  {
    hide Reads, Join, PlainName, Unbroken, Tokenize, Unset, Settings, UnsetWords, Quoted, Sanitizeds;
    var unset, settings, argv := Unset(inv.env), Settings(inv.env), [inv.command] + inv.args;
    var j := FirstBad(unset);
    var pieces := [ENV] + UnsetPieces(unset) + Quoted(settings) + [Join(Quoted(argv))];
    LineAround(pieces, j + 1, unset[j]);
    assert pieces[..j + 1] == [ENV] + UnsetPieces(unset[..j]);
    HeadReads(unset, j);
    var words := [ENV] + UnsetWords(unset[..j]) + [UNSET];
    BreaksThere(Join(pieces[..j + 1]) + [SPACE] + UNSET, words, unset[j], Join(pieces[j + 2..]));
    UnsetWordsLength(unset[..j]);
    UnsetWordAt(unset, j);
    assert WordsOf(inv) == [ENV] + UnsetWords(unset) + Sanitizeds(settings) + Sanitizeds(argv);
    assert WordsOf(inv)[2 * j + 2] == unset[j];
  }

  /**
   * The rendered line is read as the words it stands for exactly when every removed variable has a
   * plain name. Config load refuses blanks in names and nothing else a shell would act on, so a quote,
   * a dollar sign or a leading `#` in such a name changes or breaks the line.
   */
  lemma {:induction false} RenderedLineReadsBackExactlyWhen(inv: Invocation)
    requires forall i :: 0 <= i < |Unset(inv.env)| ==> Unbroken(Unset(inv.env)[i])
    ensures Tokenize(Render(inv)) == Some(WordsOf(inv))
            <==> forall i :: 0 <= i < |Unset(inv.env)| ==> PlainName(Unset(inv.env)[i])
  {
    hide PlainName, Unbroken, Tokenize, Render, WordsOf, Unset;
    if forall i :: 0 <= i < |Unset(inv.env)| ==> PlainName(Unset(inv.env)[i]) {
      RenderedLineReadsBack(inv);
    } else {
      BadNameIsLost(inv);
    }
  }

  lemma JoinThree(a: Text, b: Text, c: Text)
    ensures Join([a, b, c]) == a + [SPACE] + b + [SPACE] + c
  {
    JoinLast([a, b, c]);
    JoinLast([a, b]);
    assert [a, b, c][..2] == [a, b] && [a, b][..1] == [a];
    assert Join([a]) == a;
  }

  /** `ls` with one variable removed. */
  function Removal(name: Text): Invocation {
    Invocation([108, 115], [], [Variable(name, None)])
  }

  lemma RemovalLine(name: Text)
    ensures Render(Removal(name)) == ENV + [SPACE] + (UNSET + [SPACE] + name) + [SPACE] + [108, 115]
  {
    hide Join;
    var inv := Removal(name);
    assert inv.env[..0] == [] && Unset([]) == [] && Settings([]) == [];
    assert Unset(inv.env) == [name] && Settings(inv.env) == [];
    assert [inv.command] + inv.args == [inv.command] && inv.command == Sanitized(inv.command);
    assert Quoted([inv.command]) == [inv.command];
    JoinOne(inv.command);
    assert [ENV] + UnsetPieces([name]) + Quoted([]) + [inv.command] == [ENV, UNSET + [SPACE] + name, inv.command];
    JoinThree(ENV, UNSET + [SPACE] + name, inv.command);
  }

  lemma JoinOne(a: Text)
    ensures Join([a]) == a
  {
  }

  /** A removed variable whose name holds a quote leaves the line unreadable: the quote never closes. */
  lemma QuoteInAnUnsetNameBreaksTheLine()
    ensures Unbroken([97, QUOTE]) && Tokenize(Render(Removal([97, QUOTE]))).None?
  {
    hide Tokenize, Render;
    RemovalLine([97, QUOTE]);
    var head := ENV + [SPACE] + UNSET + [SPACE] + [97];
    assert ENV + [SPACE] + (UNSET + [SPACE] + [97, QUOTE]) + [SPACE] + [108, 115]
           == head + [QUOTE] + ([SPACE] + [108, 115]);
    NeverClosed(head, [SPACE] + [108, 115]);
  }

  /** Text without a quote never leaves the quotes it is in. */
  lemma {:induction false} StaysInside(s: Scan, text: Text)
    requires s.ok && s.mode == InQuotes && QUOTE !in text
    ensures FeedAll(s, text).ok && FeedAll(s, text).mode == InQuotes
  {
    if |text| > 0 { StaysInside(s, text[..|text| - 1]); }
  }

  lemma NeverClosed(head: Text, tail: Text)
    requires head == ENV + [SPACE] + UNSET + [SPACE] + [97] && QUOTE !in tail
    ensures Tokenize(head + [QUOTE] + tail).None?
  {
    hide Reads, FeedAll;
    FixedWords();
    PlainReads(ENV);
    PlainReads(UNSET);
    PlainReads([97]);
    ReadsTwo(ENV, [ENV], UNSET, [UNSET]);
    ReadsTwo(ENV + [SPACE] + UNSET, [ENV] + [UNSET], [97], [[97]]);
    FeedConcat(START, head + [QUOTE], tail);
    FeedConcat(START, head, [QUOTE]);
    ReadsIsOpen(head, [ENV] + [UNSET] + [[97]]);
    FeedOne(FeedAll(START, head), QUOTE);
    StaysInside(FeedAll(START, head + [QUOTE]), tail);
  }

  lemma ReadsIsOpen(piece: Text, words: seq<Text>)
    requires Reads(piece, words)
    ensures FeedAll(START, piece).ok && FeedAll(START, piece).mode == Plain
  {
    assert Ready(START);
  }
}

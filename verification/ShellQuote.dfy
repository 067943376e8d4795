/** Quoting a value for a remote shell command (internal/provisioner/remote.go) and
    how a shell reads it back. */
module ShellQuote {
  import opened Wrappers

  predicate Unsafe(c: char) {
    c == '\r' || c == '\n' || c == '\0'
  }

  /** Inside single quotes nothing escapes a single quote: each one ends the quoted
      part, stands between double quotes, and opens a new quoted part. */
  function ReplaceQuotes(value: string): string {
    if value == "" then ""
    else (if value[0] == '\'' then "'\"'\"'" else [value[0]]) + ReplaceQuotes(value[1..])
  }

  function ShellQuote(value: string): Option<string> {
    if exists i :: 0 <= i < |value| && Unsafe(value[i]) then None
    else Some("'" + ReplaceQuotes(value) + "'")
  }

  function ShellPath(value: string): Option<string> {
    if value == "" || value[0] != '/' || exists i :: 0 <= i < |value| && Unsafe(value[i]) then None
    else ShellQuote(value)
  }

  // ---- The reader: sections 2.2.2, 2.2.3 and 2.3 of POSIX.1-2017, Shell Command
  // ---- Language, for text without expansions, operators and escapes

  /** Where the reader is: between words, or in a word outside quotes, inside single
      quotes or inside double quotes. */
  datatype Mode = Between | Bare(word: string) | Single(word: string) | Double(word: string)

  /** The words read so far and the mode; Broken where the text is not plain words. */
  datatype State = Reading(words: seq<string>, mode: Mode) | Broken

  /** The characters that mean something else than themselves outside quotes. */
  predicate Special(c: char) {
    || c == '|' || c == '&' || c == ';' || c == '<' || c == '>' || c == '(' || c == ')' || c == '$' || c == '`'
    || c == '\\' || c == '*' || c == '?' || c == '[' || c == '#' || c == '~' || c == '=' || c == '%' || c == '!'
    || c == '{' || c == '}' || Unsafe(c)
  }

  predicate Blank(c: char) {
    c == ' ' || c == '\t'
  }

  function Prefix(mode: Mode): string {
    if mode.Between? then "" else mode.word
  }

  function StepBare(words: seq<string>, mode: Mode, c: char): State {
    if c == '\'' then Reading(words, Single(Prefix(mode)))
    else if c == '"' then Reading(words, Double(Prefix(mode)))
    else if Special(c) then Broken
    else if !Blank(c) then Reading(words, Bare(Prefix(mode) + [c]))
    else Reading(if mode.Between? then words else words + [mode.word], Between)
  }

  function Step(s: State, c: char): State {
    if s.Broken? then Broken
    else if s.mode.Single? then
      Reading(s.words, if c == '\'' then Bare(s.mode.word) else Single(s.mode.word + [c]))
    else if s.mode.Double? then
      if c == '"' then Reading(s.words, Bare(s.mode.word))
      else if c in {'$', '`', '\\'} then Broken
      else Reading(s.words, Double(s.mode.word + [c]))
    else StepBare(s.words, s.mode, c)
  }

  function Run(text: string, s: State): State {
    if text == "" then s else Run(text[1..], Step(s, text[0]))
  }

  /** The words of a text; an error where it is not plain words or ends inside
      quotes. */
  function Words(text: string): Option<seq<string>> {
    match Run(text, Reading([], Between))
    case Reading(words, Between) => Some(words)
    case Reading(words, Bare(word)) => Some(words + [word])
    case _ => None
  }

  lemma {:induction false} RunConcat(a: string, b: string, s: State)
    ensures Run(a + b, s) == Run(b, Run(a, s))
  {
    if a == "" {
      assert a + b == b;
    } else {
      RunConcat(a[1..], b, Step(s, a[0]));
      assert (a + b)[1..] == a[1..] + b;
    }
  }

  lemma RunOne(c: char, s: State)
    ensures Run([c], s) == Step(s, c)
  {
    assert [c][1..] == "";
  }

  /** Leaving the single quotes, one quote in double quotes, entering them again. */
  lemma ReadsQuotedQuote(words: seq<string>, word: string)
    ensures Run("'\"'\"'", Reading(words, Single(word))) == Reading(words, Single(word + ['\'']))
  {
    var s0 := Reading(words, Single(word));
    var s1, s2 := Reading(words, Bare(word)), Reading(words, Double(word));
    var s3, s4 := Reading(words, Double(word + ['\''])), Reading(words, Bare(word + ['\'']));
    RunConcat("'", "\"'\"'", s0);
    RunConcat("\"", "'\"'", s1);
    RunConcat("'", "\"'", s2);
    RunConcat("\"", "'", s3);
    assert "'" + "\"'\"'" == "'\"'\"'" && "\"" + "'\"'" == "\"'\"'";
    RunOne('\'', s0);
    RunOne('"', s1);
    RunOne('\'', s2);
    RunOne('"', s3);
    RunOne('\'', s4);
  }

  /** Inside single quotes the replaced text reads as the value. */
  lemma {:induction false} ReadsReplaced(value: string, words: seq<string>, word: string)
    ensures Run(ReplaceQuotes(value), Reading(words, Single(word))) == Reading(words, Single(word + value))
  {
    if value == "" {
      assert word + value == word;
    } else {
      var c, tail := value[0], value[1..];
      var s := Reading(words, Single(word));
      if c == '\'' {
        ReadsQuotedQuote(words, word);
        RunConcat("'\"'\"'", ReplaceQuotes(tail), s);
      } else {
        RunOne(c, s);
        RunConcat([c], ReplaceQuotes(tail), s);
      }
      ReadsReplaced(tail, words, word + [c]);
      assert word + [c] + tail == word + value;
    }
  }

  /** Wherever a quoted value stands in a command, outside other quotes, it adds
      exactly the value to the current word: nothing in it ends the word or leaves the
      reader inside quotes. */
  lemma QuotedReadsAsValue(value: string, words: seq<string>, mode: Mode)
    requires ShellQuote(value).Some? && (mode.Between? || mode.Bare?)
    ensures Run(ShellQuote(value).value, Reading(words, mode)) == Reading(words, Bare(Prefix(mode) + value))
  {
    var s := Reading(words, mode);
    RunConcat("'", ReplaceQuotes(value) + "'", s);
    assert "'" + (ReplaceQuotes(value) + "'") == ShellQuote(value).value;
    RunOne('\'', s);
    RunConcat(ReplaceQuotes(value), "'", Reading(words, Single(Prefix(mode))));
    ReadsReplaced(value, words, Prefix(mode));
    RunOne('\'', Reading(words, Single(Prefix(mode) + value)));
  }

  /** The round trip: every string without CR, LF and NUL, the empty one included,
      is quoted and reads back as one word, itself; the others are refused. */
  lemma QuoteRoundTrip(value: string)
    ensures ShellQuote(value).Some? <==> forall i :: 0 <= i < |value| ==> !Unsafe(value[i])
    ensures ShellQuote(value).Some? ==> Words(ShellQuote(value).value) == Some([value])
  {
    if ShellQuote(value).Some? {
      QuotedReadsAsValue(value, [], Between);
      assert Prefix(Between) + value == value;
      assert [] + [value] == [value];
    }
  }

  lemma BlankEndsWord(words: seq<string>, word: string)
    ensures Run(" ", Reading(words, Bare(word))) == Reading(words + [word], Between)
  {
    assert " "[1..] == "";
    assert Step(Reading(words, Bare(word)), ' ') == StepBare(words, Bare(word), ' ');
  }

  /** The reader takes text in which no character means anything else for itself. */
  lemma {:induction false} PlainReads(text: string, words: seq<string>, word: string)
    requires forall i :: 0 <= i < |text| ==> !Special(text[i]) && !Blank(text[i]) && text[i] != '\'' && text[i] != '"'
    ensures Run(text, Reading(words, Bare(word))) == Reading(words, Bare(word + text))
  {
    if text == "" {
      assert word + text == word;
    } else {
      PlainReads(text[1..], words, word + [text[0]]);
      assert word + [text[0]] + text[1..] == word + text;
    }
  }

  /** A quoted argument in a command: it is one more word, and what comes after it is
      read as if the value had been written without any special meaning. */
  lemma ArgumentIsOneWord(before: string, value: string, after: string, words: seq<string>)
    requires ShellQuote(value).Some? && Run(before, Reading([], Between)) == Reading(words, Between)
    ensures Words(before + ShellQuote(value).value) == Some(words + [value])
    ensures Run(before + ShellQuote(value).value + " " + after, Reading([], Between)) == Run(after, Reading(words + [value], Between))
  {
    var quoted, start := ShellQuote(value).value, Reading([], Between);
    RunConcat(before, quoted, start);
    QuotedReadsAsValue(value, words, Between);
    assert Prefix(Between) + value == value;
    RunConcat(before + quoted, " " + after, start);
    assert before + quoted + " " + after == (before + quoted) + (" " + after);
    var inside := Reading(words, Bare(value));
    assert Run(before + quoted, start) == inside;
    RunConcat(" ", after, inside);
    BlankEndsWord(words, value);
  }

  /** Only absolute paths are accepted as managed files, and they read back as they
      are. */
  lemma PathRoundTrip(value: string)
    ensures ShellPath(value).Some? <==>
            "/" <= value && forall i :: 0 <= i < |value| ==> !Unsafe(value[i])
    ensures ShellPath(value).Some? ==> Words(ShellPath(value).value) == Some([value])
  {
    QuoteRoundTrip(value);
  }
}

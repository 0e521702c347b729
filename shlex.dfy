/** Python's `shlex.split(s)` in its default POSIX mode, as `load_info_file` uses it on the
    right-hand side of an info-file line: words separated by blanks, single and double
    quotes, and backslash escapes. `split` tokenises the whole string, so an unclosed
    quote anywhere raises, even after the first word. */
module Shlex {
  import opened Wrappers

  /** `shlex.whitespace`. */
  predicate IsBlank(c: char) { c == ' ' || c == '\t' || c == '\r' || c == '\n' }

  /** Characters that mean something to the lexer. */
  predicate IsSpecial(c: char) { IsBlank(c) || c == '\'' || c == '"' || c == '\\' }

  /** The lexer's states: between words, inside a word, inside quotes, and right after a
      backslash (which remembers whether it came inside double quotes). */
  datatype Mode = Blank | Word | Single | Double | EscapeWord | EscapeDouble

  /** The two `ValueError`s the lexer raises. */
  datatype LexError = NoClosingQuotation | NoEscapedCharacter

  function Prepend(token: string, r: Result<seq<string>, LexError>): Result<seq<string>, LexError> {
    match r
    case Ok(ts) => Ok([token] + ts)
    case Err(e) => Err(e)
  }

  /** The words of `s` read in mode `m`, with the current word so far and whether it has
      used quotes (a quoted empty word is still a word). */
  function Lex(s: string, m: Mode, token: string, quoted: bool): Result<seq<string>, LexError>
    decreases |s|
  {
    if s == [] then
      match m
      case Blank => Ok([])
      case Word => Ok(if token != [] || quoted then [token] else [])
      case Single => Err(NoClosingQuotation)
      case Double => Err(NoClosingQuotation)
      case EscapeWord => Err(NoEscapedCharacter)
      case EscapeDouble => Err(NoEscapedCharacter)
    else
      var c := s[0];
      var rest := s[1..];
      match m
      case Blank =>
        if IsBlank(c) then Lex(rest, Blank, "", false)
        else if c == '\\' then Lex(rest, EscapeWord, "", false)
        else if c == '\'' then Lex(rest, Single, "", false)
        else if c == '"' then Lex(rest, Double, "", false)
        else Lex(rest, Word, [c], false)
      case Word =>
        if IsBlank(c) then
          (if token != [] || quoted then Prepend(token, Lex(rest, Blank, "", false)) else Lex(rest, Blank, "", false))
        else if c == '\'' then Lex(rest, Single, token, quoted)
        else if c == '"' then Lex(rest, Double, token, quoted)
        else if c == '\\' then Lex(rest, EscapeWord, token, quoted)
        else Lex(rest, Word, token + [c], quoted)
      case Single =>
        if c == '\'' then Lex(rest, Word, token, true) else Lex(rest, Single, token + [c], true)
      case Double =>
        if c == '"' then Lex(rest, Word, token, true)
        else if c == '\\' then Lex(rest, EscapeDouble, token, true)
        else Lex(rest, Double, token + [c], true)
      case EscapeWord => Lex(rest, Word, token + [c], quoted)
      case EscapeDouble =>
        // inside double quotes a backslash only escapes a backslash or a double quote
        Lex(rest, Double, token + (if c == '\\' || c == '"' then [c] else ['\\', c]), quoted)
  }

  /** `shlex.split(s)`. */
  function Split(s: string): Result<seq<string>, LexError> {
    Lex(s, Blank, "", false)
  }

  /** A run of ordinary characters extends the current word. */
  lemma {:induction false} LexWordRun(w: string, rest: string, token: string, quoted: bool)
    requires forall i :: 0 <= i < |w| ==> !IsSpecial(w[i])
    ensures Lex(w + rest, Word, token, quoted) == Lex(rest, Word, token + w, quoted)
    decreases |w|
  {
    if w != [] {
      assert (w + rest)[0] == w[0];
      assert (w + rest)[1..] == w[1..] + rest;
      LexWordRun(w[1..], rest, token + [w[0]], quoted);
      assert token + [w[0]] + w[1..] == token + w;
    } else {
      assert w + rest == rest && token + w == token;
    }
  }

  /** Inside double quotes, anything but a double quote and a backslash is taken as is,
      blanks included. */
  lemma {:induction false} LexDoubleRun(w: string, rest: string, token: string, quoted: bool)
    requires forall i :: 0 <= i < |w| ==> w[i] != '"' && w[i] != '\\'
    ensures Lex(w + rest, Double, token, quoted) == Lex(rest, Double, token + w, quoted || w != [])
    decreases |w|
  {
    if w != [] {
      assert (w + rest)[0] == w[0];
      assert (w + rest)[1..] == w[1..] + rest;
      LexDoubleRun(w[1..], rest, token + [w[0]], true);
      assert token + [w[0]] + w[1..] == token + w;
    } else {
      assert w + rest == rest && token + w == token;
    }
  }

  /** Blanks between words are skipped. */
  lemma {:induction false} LexBlankRun(b: string, rest: string)
    requires forall i :: 0 <= i < |b| ==> IsBlank(b[i])
    ensures Lex(b + rest, Blank, "", false) == Lex(rest, Blank, "", false)
    decreases |b|
  {
    if b != [] {
      assert (b + rest)[0] == b[0];
      assert (b + rest)[1..] == b[1..] + rest;
      LexBlankRun(b[1..], rest);
    } else {
      assert b + rest == rest;
    }
  }

  /** A line holding only blanks has no words. */
  lemma SplitBlank(b: string)
    requires forall i :: 0 <= i < |b| ==> IsBlank(b[i])
    ensures Split(b) == Ok([])
  {
    LexBlankRun(b, []);
    assert b + [] == b;
  }

  /** A plain word between blanks splits to itself. */
  lemma SplitPlain(lead: string, w: string, trail: string)
    requires forall i :: 0 <= i < |lead| ==> IsBlank(lead[i])
    requires forall i :: 0 <= i < |trail| ==> IsBlank(trail[i])
    requires w != [] && forall i :: 0 <= i < |w| ==> !IsSpecial(w[i])
    ensures Split(lead + w + trail) == Ok([w])
  {
    assert lead + w + trail == lead + (w + trail);
    LexBlankRun(lead, w + trail);
    var t := w[1..];
    assert (w + trail)[0] == w[0] && (w + trail)[1..] == t + trail;
    assert Lex(w + trail, Blank, "", false) == Lex(t + trail, Word, [w[0]], false);
    LexWordRun(t, trail, [w[0]], false);
    assert [w[0]] + t == w;
    assert Split(lead + w + trail) == Lex(trail, Word, w, false);
    if trail != [] {
      assert Lex(trail, Word, w, false) == Prepend(w, Lex(trail[1..], Blank, "", false));
      assert trail[1..] + [] == trail[1..];
      LexBlankRun(trail[1..], []);
      assert Lex([], Blank, "", false) == Ok([]);
      assert Lex(trail[1..], Blank, "", false) == Ok([]);
      assert [w] + [] == [w];
    }
  }

  /** A double-quoted value, as in `display_name = "Nintendo - NES"`, splits to its
      content. */
  lemma SplitQuoted(lead: string, w: string, trail: string)
    requires forall i :: 0 <= i < |lead| ==> IsBlank(lead[i])
    requires forall i :: 0 <= i < |trail| ==> IsBlank(trail[i])
    requires forall i :: 0 <= i < |w| ==> w[i] != '"' && w[i] != '\\'
    ensures Split(lead + "\"" + w + "\"" + trail) == Ok([w])
  {
    var q := "\"" + trail;
    var s := lead + "\"" + w + q;
    assert lead + "\"" + w + "\"" + trail == s;
    assert s == lead + ("\"" + w + q);
    LexBlankRun(lead, "\"" + w + q);
    assert ("\"" + w + q)[0] == '"' && ("\"" + w + q)[1..] == w + q;
    assert Lex("\"" + w + q, Blank, "", false) == Lex(w + q, Double, "", false);
    LexDoubleRun(w, q, "", false);
    assert "" + w == w;
    assert q[0] == '"' && q[1..] == trail;
    assert Lex(q, Double, w, w != []) == Lex(trail, Word, w, true);
    assert Split(s) == Lex(trail, Word, w, true);
    if trail != [] {
      assert Lex(trail, Word, w, true) == Prepend(w, Lex(trail[1..], Blank, "", false));
      assert trail[1..] + [] == trail[1..];
      LexBlankRun(trail[1..], []);
      assert Lex([], Blank, "", false) == Ok([]);
      assert Lex(trail[1..], Blank, "", false) == Ok([]);
      assert [w] + [] == [w];
    }
  }

  lemma SplitQuotedExample()
    ensures Split("\"Nintendo - NES\"\n") == Ok(["Nintendo - NES"])
  {
    var w := "Nintendo - NES";
    SplitQuoted("", w, "\n");
    assert "" + "\"" + w + "\"" + "\n" == "\"Nintendo - NES\"\n";
  }

  lemma SplitPlainExample()
    ensures Split(" 1.2\n") == Ok(["1.2"])
  {
    SplitPlain(" ", "1.2", "\n");
    assert " " + "1.2" + "\n" == " 1.2\n";
  }

  /** The first word is fine but the second quote is never closed. */
  lemma SplitUnclosedExample()
    ensures Split(" \"a\" \"b") == Err(NoClosingQuotation)
  {
  }
}

/** The commit line of the generated script: how the message is quoted, and how a shell reads it back
    by the quoting rules of the POSIX Shell Command Language. */
module ShellQuote {
  import opened Seqs

  const SINGLE_QUOTE := '\''
  const NUL := '\0'

  /** Closes the quotes, adds a double-quoted single quote, opens them again. */
  const ESCAPED_QUOTE := "'\"'\"'"

  const TRAILER_KEY := "\n\nCo-Authored-By: "
  const TRAILER_VALUE := "containifyci <bot@containifyci.io>"
  const TRAILER := TRAILER_KEY + TRAILER_VALUE

  /** Replacing every single quote. */
  function Escape(msg: string): string {
    if msg == "" then "" else
      Escape(msg[..|msg| - 1]) + if msg[|msg| - 1] == SINGLE_QUOTE then ESCAPED_QUOTE else [msg[|msg| - 1]]
  }

  function CommitLine(msg: string): string {
    "git commit -m '" + Escape(msg) + TRAILER + "'\n"
  }

  lemma {:induction false} EscapeConcat(a: string, b: string)
    ensures Escape(a + b) == Escape(a) + Escape(b)
  {
    if b == "" {
      NilRight(a);
      NilRight(Escape(a));
    } else {
      assert (a + b)[..|a + b| - 1] == a + b[..|b| - 1];
      EscapeConcat(a, b[..|b| - 1]);
    }
  }

  /** Escaping goes character by character and changes single quotes only. */
  lemma EscapeSpelled(a: string, c: char, b: string)
    ensures Escape(a + [c] + b) == Escape(a) + (if c == '\'' then "'\"'\"'" else [c]) + Escape(b)
    ensures Escape("") == ""
  {
    EscapeConcat(a + [c], b);
    EscapeConcat(a, [c]);
    assert [c][..0] == "";
  }

  // ---------- reading a command line ----------

  /** Where the reader is: outside quotes, inside a pair of them, past the newline that ends the
      command, or at something these rules give no words for. */
  datatype Mode = Unquoted | InSingle | InDouble | Ended | Stuck

  /** The complete words so far and the one being read, if any. */
  datatype Reader = Reader(mode: Mode, words: seq<string>, word: Option<string>)

  /** Characters with no meaning of their own outside quotes. */
  predicate Ordinary(c: char) {
    'a' <= c <= 'z' || 'A' <= c <= 'Z' || '0' <= c <= '9' || c in "-_./:,+@%"
  }

  function Append(r: Reader, c: char): Reader {
    r.(word := Some(if r.word.Some? then r.word.value + [c] else [c]))
  }

  function Open(r: Reader, mode: Mode): Reader {
    r.(mode := mode, word := if r.word.Some? then r.word else Some(""))
  }

  function Close(r: Reader, mode: Mode): Reader {
    if r.word.Some? then Reader(mode, r.words + [r.word.value], None) else r.(mode := mode)
  }

  /** One character: sections 2.2.2 and 2.2.3 inside quotes, section 2.3 outside. What would start an
      expansion, an operator or an escape outside this model leaves the reader stuck. */
  function Read(r: Reader, c: char): Reader {
    if r.mode == Ended || r.mode == Stuck then r
    else if c == NUL then r.(mode := Stuck)
    else match r.mode
      case InSingle => if c == SINGLE_QUOTE then r.(mode := Unquoted) else Append(r, c)
      case InDouble =>
        if c == '"' then r.(mode := Unquoted)
        else if c in "$`\\" then r.(mode := Stuck)
        else Append(r, c)
      case _ =>
        if c == SINGLE_QUOTE then Open(r, InSingle)
        else if c == '"' then Open(r, InDouble)
        else if c == '\n' then Close(r, Ended)
        else if c == ' ' || c == '\t' then Close(r, Unquoted)
        else if Ordinary(c) then Append(r, c)
        else r.(mode := Stuck)
  }

  function ReadAll(r: Reader, s: string): Reader {
    if s == "" then r else Read(ReadAll(r, s[..|s| - 1]), s[|s| - 1])
  }

  /** The words of the first command of a script. */
  function FirstCommand(script: string): Option<seq<string>> {
    var r := ReadAll(Reader(Unquoted, [], None), script);
    if r.mode == Ended then Some(r.words) else None
  }

  lemma {:induction false} ReadConcat(r: Reader, a: string, b: string)
    ensures ReadAll(r, a + b) == ReadAll(ReadAll(r, a), b)
  {
    if b == "" {
      NilRight(a);
    } else {
      assert (a + b)[..|a + b| - 1] == a + b[..|b| - 1];
      ReadConcat(r, a, b[..|b| - 1]);
    }
  }

  lemma {:induction false} ReadStops(r: Reader, s: string)
    requires r.mode == Ended || r.mode == Stuck
    ensures ReadAll(r, s) == r
  {
    if s != "" {
      ReadStops(r, s[..|s| - 1]);
    }
  }

  lemma ReadOne(r: Reader, c: char)
    ensures ReadAll(r, [c]) == Read(r, c)
  {
    assert [c][..0] == "";
  }

  lemma {:induction false} ReadOrdinary(r: Reader, s: string)
    requires r.mode == Unquoted && r.word == None && s != "" && forall i :: 0 <= i < |s| ==> Ordinary(s[i])
    ensures ReadAll(r, s) == r.(word := Some(s))
  {
    var n := |s| - 1;
    assert s == s[..n] + [s[n]];
    if n > 0 {
      ReadOrdinary(r, s[..n]);
    }
  }

  /** An unquoted word and the space after it. */
  lemma ReadWord(r: Reader, s: string)
    requires r.mode == Unquoted && r.word == None && s != "" && forall i :: 0 <= i < |s| ==> Ordinary(s[i])
    ensures ReadAll(r, s + " ") == r.(words := r.words + [s])
  {
    ReadOrdinary(r, s);
    ReadConcat(r, s, " ");
    ReadOne(ReadAll(r, s), ' ');
  }

  /** Inside single quotes text without quotes or NUL is taken as it is. */
  lemma {:induction false} ReadLiteral(r: Reader, w: string, s: string)
    requires r.mode == InSingle && r.word == Some(w) && SINGLE_QUOTE !in s && NUL !in s
    ensures ReadAll(r, s) == r.(word := Some(w + s))
  {
    if s == "" {
      NilRight(w);
    } else {
      var n := |s| - 1;
      assert s == s[..n] + [s[n]];
      ReadLiteral(r, w, s[..n]);
      Assoc(w, s[..n], [s[n]]);
    }
  }

  /** The five characters of an escaped quote give one quote and leave the reader inside quotes. */
  lemma ReadEscapedQuote(r: Reader, w: string)
    requires r.mode == InSingle && r.word == Some(w)
    ensures ReadAll(r, ESCAPED_QUOTE) == r.(word := Some(w + [SINGLE_QUOTE]))
  {
    var s := ESCAPED_QUOTE;
    var r1 := Read(r, s[0]);
    var r2 := Read(r1, s[1]);
    var r3 := Read(r2, s[2]);
    var r4 := Read(r3, s[3]);
    assert r2 == r.(mode := InDouble) && r3 == r2.(word := Some(w + [SINGLE_QUOTE]));
    assert ReadAll(r, s[..0]) == r;
    assert s[..1][..0] == s[..0] && s[..2][..1] == s[..1] && s[..3][..2] == s[..2] && s[..4][..3] == s[..3];
    assert ReadAll(r, s[..1]) == r1;
    assert ReadAll(r, s[..2]) == r2;
    assert ReadAll(r, s[..3]) == r3;
    assert ReadAll(r, s[..4]) == r4;
    assert s[..5] == s && s[..5][..4] == s[..4];
  }

  /** Escaping undoes the shell's reading: inside quotes the message itself joins the word. */
  lemma {:induction false} ReadEscaped(r: Reader, w: string, msg: string)
    requires r.mode == InSingle && r.word == Some(w) && NUL !in msg
    ensures ReadAll(r, Escape(msg)) == r.(word := Some(w + msg))
  {
    if msg == "" {
      NilRight(w);
    } else {
      var n := |msg| - 1;
      var c := msg[n];
      assert msg == msg[..n] + [c];
      ReadEscaped(r, w, msg[..n]);
      var mid := r.(word := Some(w + msg[..n]));
      Assoc(w, msg[..n], [c]);
      if c == SINGLE_QUOTE {
        ReadConcat(r, Escape(msg[..n]), ESCAPED_QUOTE);
        ReadEscapedQuote(mid, w + msg[..n]);
      } else {
        ReadConcat(r, Escape(msg[..n]), [c]);
        ReadOne(mid, c);
      }
    }
  }

  /** A NUL in the message leaves the reader stuck. */
  lemma {:induction false} ReadNul(r: Reader, w: string, msg: string)
    requires r.mode == InSingle && r.word == Some(w) && NUL in msg
    ensures ReadAll(r, Escape(msg)).mode == Stuck
  {
    var n := |msg| - 1;
    var c := msg[n];
    assert msg == msg[..n] + [c];
    var last := if c == SINGLE_QUOTE then ESCAPED_QUOTE else [c];
    ReadConcat(r, Escape(msg[..n]), last);
    if NUL in msg[..n] {
      ReadNul(r, w, msg[..n]);
      ReadStops(ReadAll(r, Escape(msg[..n])), last);
    } else {
      ReadEscaped(r, w, msg[..n]);
      ReadOne(ReadAll(r, Escape(msg[..n])), c);
    }
  }

  const START := Reader(Unquoted, [], None)
  const QUOTED := Reader(InSingle, ["git", "commit", "-m"], Some(""))

  lemma ReadCommandWords()
    ensures ReadAll(START, "git" + " ") == START.(words := ["git"])
    ensures ReadAll(START.(words := ["git"]), "commit" + " ") == START.(words := ["git", "commit"])
    ensures ReadAll(START.(words := ["git", "commit"]), "-m" + " ") == START.(words := ["git", "commit", "-m"])
  {
    ReadWord(START, "git");
    ReadWord(START.(words := ["git"]), "commit");
    ReadWord(START.(words := ["git", "commit"]), "-m");
    assert START.words + ["git"] == ["git"];
    assert ["git"] + ["commit"] == ["git", "commit"];
    assert ["git", "commit"] + ["-m"] == ["git", "commit", "-m"];
  }

  lemma ReadPrefix()
    ensures ReadAll(START, "git commit -m '") == QUOTED
  {
    var a, b, c := "git" + " ", "commit" + " ", "-m" + " ";
    assert "git commit -m '" == a + (b + (c + "'"));
    ReadCommandWords();
    ReadConcat(START, a, b + (c + "'"));
    ReadConcat(START.(words := ["git"]), b, c + "'");
    ReadConcat(START.(words := ["git", "commit"]), c, "'");
    ReadOne(START.(words := ["git", "commit", "-m"]), SINGLE_QUOTE);
  }

  lemma PlainConcat(a: string, b: string)
    requires SINGLE_QUOTE !in a && NUL !in a && SINGLE_QUOTE !in b && NUL !in b
    ensures SINGLE_QUOTE !in a + b && NUL !in a + b
  {
  }

  lemma KeyIsPlain()
    ensures SINGLE_QUOTE !in TRAILER_KEY && NUL !in TRAILER_KEY
  {
  }

  lemma AddressIsPlain()
    ensures SINGLE_QUOTE !in TRAILER_VALUE && NUL !in TRAILER_VALUE
  {
  }

  lemma TrailerIsPlain()
    ensures SINGLE_QUOTE !in TRAILER && NUL !in TRAILER
  {
    KeyIsPlain();
    AddressIsPlain();
    PlainConcat(TRAILER_KEY, TRAILER_VALUE);
  }

  /** Whatever follows the line in the script, the shell reads exactly four words from it, the last
      being the message and the trailer, exactly when the message has no NUL. */
  lemma CommitLineReadsBackIff(msg: string, rest: string)
    ensures FirstCommand(CommitLine(msg) + rest) ==
              Some(["git", "commit", "-m", msg + ("\n\nCo-Authored-By: " + "containifyci <bot@containifyci.io>")]) <==>
            '\0' !in msg
    ensures '\0' in msg ==> FirstCommand(CommitLine(msg) + rest) == None
  {
    var end := TRAILER + ("'\n" + rest);
    assert CommitLine(msg) + rest == "git commit -m '" + (Escape(msg) + end);
    ReadPrefix();
    ReadConcat(START, "git commit -m '", Escape(msg) + end);
    ReadConcat(QUOTED, Escape(msg), end);
    if NUL in msg {
      ReadNul(QUOTED, "", msg);
      ReadStops(ReadAll(QUOTED, Escape(msg)), end);
    } else {
      ReadEscaped(QUOTED, "", msg);
      assert "" + msg == msg;
      ReadEnd(QUOTED.(word := Some(msg)), msg, rest);
    }
  }

  lemma ReadEnd(r: Reader, msg: string, rest: string)
    requires r == QUOTED.(word := Some(msg))
    ensures ReadAll(r, TRAILER + ("'\n" + rest)) == Reader(Ended, ["git", "commit", "-m", msg + TRAILER], None)
  {
    TrailerIsPlain();
    ReadConcat(r, TRAILER, "'\n" + rest);
    ReadLiteral(r, msg, TRAILER);
    var r1 := r.(word := Some(msg + TRAILER));
    assert "'\n" + rest == "'" + ("\n" + rest);
    ReadConcat(r1, "'", "\n" + rest);
    ReadOne(r1, SINGLE_QUOTE);
    var r2 := r1.(mode := Unquoted);
    ReadConcat(r2, "\n", rest);
    ReadOne(r2, '\n');
    var r3 := Read(r2, '\n');
    assert ["git", "commit", "-m"] + [msg + TRAILER] == ["git", "commit", "-m", msg + TRAILER];
    ReadStops(r3, rest);
  }
}

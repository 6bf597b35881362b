/** Command lines as they are typed (shell/parsing.c). */
module ShellWords {
  // What each word of a command means for the program that runs, and a whole pipeline
  // from its text to the descriptors of its programs (shell/exec.c).

  import opened ShellParse
  import opened ShellExec

  // The kinds of words, with the part of the text that matters: the character before the
  // > or instead of it does not, so it is usually a 2, or the < itself. Glued is a word
  // with a > after its second character, as in ls>out.
  datatype Word =
    | Arg(text: string)
    | Variable(name: string)
    | Setting(text: string)
    | Out(file: string)
    | In(mark: char, file: string)
    | Err(fd: char, file: string)
    | Glued(head: string, file: string)

  // How a word is typed.
  function Spell(w: Word): string {
    match w
    case Arg(text) => text
    case Variable(name) => "$" + name
    case Setting(text) => text
    case Out(file) => ">" + file
    case In(mark, file) => [mark] + file
    case Err(fd, file) => [fd] + ">" + file
    case Glued(head, file) => head + ">" + file
  }

  predicate Lacks(s: string, c: char) { forall j {:trigger s[j]} :: 0 <= j < |s| ==> s[j] != c }

  // No redirection and no setting; an option like --key=value is none.
  predicate IsPlain(s: string) {
    Lacks(s, SPACE) && Lacks(s, '>') && Lacks(s, '<') && (Lacks(s, '=') || !Lacks(s, '-') || s[0] == '=')
  }

  // key=value, without a dash.
  predicate IsSetting(s: string) {
    && Lacks(s, SPACE) && Lacks(s, '>') && Lacks(s, '<') && Lacks(s, '-')
    && s != "" && s[0] != '=' && !Lacks(s, '=')
  }

  // The text of the word is of its kind.
  predicate WellTyped(w: Word) {
    match w
    case Arg(text) => text != "" && text[0] != '$' && IsPlain(text)
    case Variable(name) => IsPlain("$" + name)
    case Setting(text) => IsSetting(text)
    case Out(file) => Lacks(file, SPACE)
    case In(mark, file) => var s := [mark] + file; Lacks(s, SPACE) && Lacks(s, '>') && !Lacks(s, '<')
    case Err(fd, file) => fd != SPACE && fd != '>' && Lacks(file, SPACE)
    case Glued(head, file) => |head| >= 2 && Lacks(head, SPACE) && Lacks(head, '>') && Lacks(file, SPACE)
  }

  // The words of a command that the program gets, in order; a variable without a value
  // is left out.
  function Arguments(env: string -> string, ws: seq<Word>): seq<string> {
    if ws == [] then []
    else
      var w := ws[|ws| - 1];
      Arguments(env, ws[..|ws| - 1])
      + match w {
          case Arg(text) => [text]
          case Variable(name) => if env("$" + name) != "" then [env("$" + name)] else []
          case _ => []
        }
  }

  function Settings(ws: seq<Word>): seq<string> {
    if ws == [] then []
    else Settings(ws[..|ws| - 1]) + if ws[|ws| - 1].Setting? then [ws[|ws| - 1].text] else []
  }

  // The last file named for each stream.
  function LastOut(ws: seq<Word>): string {
    if ws == [] then "" else if ws[|ws| - 1].Out? then ws[|ws| - 1].file else LastOut(ws[..|ws| - 1])
  }

  function LastIn(ws: seq<Word>): string {
    if ws == [] then "" else if ws[|ws| - 1].In? then ws[|ws| - 1].file else LastIn(ws[..|ws| - 1])
  }

  function LastErr(ws: seq<Word>): string {
    if ws == [] then "" else if ws[|ws| - 1].Err? then ws[|ws| - 1].file else LastErr(ws[..|ws| - 1])
  }

  predicate IsRedirection(w: Word) { w.Out? || w.In? || w.Err? || w.Glued? }

  predicate Redirects(ws: seq<Word>) { exists i {:trigger ws[i]} :: 0 <= i < |ws| && IsRedirection(ws[i]) }

  /** What a command of these words is to run, and with which files. */
  function ExecFor(env: string -> string, ws: seq<Word>): Exec {
    Exec(Arguments(env, ws), Settings(ws), LastOut(ws), LastIn(ws), LastErr(ws), Redirects(ws))
  }

  predicate AllWellTyped(ws: seq<Word>) { forall i {:trigger ws[i]} :: 0 <= i < |ws| ==> WellTyped(ws[i]) }

  function Spelled(ws: seq<Word>): (s: seq<string>)
    ensures |s| == |ws| && forall i :: 0 <= i < |ws| ==> s[i] == Spell(ws[i])
  {
    seq(|ws|, i requires 0 <= i < |ws| => Spell(ws[i]))
  }

  // ---------------------------------------------------------------------
  // One word

  lemma LacksIs(s: string, c: char)
    ensures Lacks(s, c) <==> IndexOf(s, c) < 0
  {
    IndexOfIsFirst(s, c);
  }

  lemma SpelledIsWord(w: Word)
    requires WellTyped(w)
    ensures IsWord(Spell(w))
  {
    LacksIs(Spell(w), SPACE);
  }

  lemma TakePlain(env: string -> string, e: Exec, s: string)
    requires s != "" && IsPlain(s)
    ensures Take(env, e, s) ==
            if Expanded(env, s) == "" then e else Exec(e.argv + [Expanded(env, s)], e.eargv, e.outFile, e.inFile, e.errFile, e.redir)
  {
    LacksIs(s, '>');
    LacksIs(s, '<');
    LacksIs(s, '=');
    LacksIs(s, '-');
  }

  lemma TakeSetting(env: string -> string, e: Exec, s: string)
    requires IsSetting(s)
    ensures Take(env, e, s) == Exec(e.argv, e.eargv + [s], e.outFile, e.inFile, e.errFile, e.redir)
  {
    LacksIs(s, '>');
    LacksIs(s, '<');
    LacksIs(s, '=');
    LacksIs(s, '-');
    IndexOfIsFirst(s, '=');
  }

  lemma TakeRedirection(env: string -> string, e: Exec, w: Word)
    requires WellTyped(w) && IsRedirection(w)
    ensures Take(env, e, Spell(w)) ==
            Exec(e.argv, e.eargv, if w.Out? then w.file else e.outFile, if w.In? then w.file else e.inFile, if w.Err? then w.file else e.errFile, true)
  {
    var s := Spell(w);
    if w.Out? {
      IndexAt(s, '>', 0);
      assert s[1..] == w.file;
    } else if w.Err? {
      IndexAt(s, '>', 1);
      assert s[2..] == w.file;
    } else if w.Glued? {
      assert forall j {:trigger s[j]} :: 0 <= j < |w.head| ==> s[j] == w.head[j];
      IndexAt(s, '>', |w.head|);
    } else {
      LacksIs(s, '>');
      LacksIs(s, '<');
      assert s[1..] == w.file;
    }
  }

  lemma Parts(s: string, k: nat)
    requires k < |s|
    ensures s == s[..k] + [s[k]] + s[k + 1..]
  {
  }

  /** Every word is of one of the kinds. */
  lemma KindOfWord(s: string) returns (w: Word)
    requires IsWord(s)
    ensures WellTyped(w) && Spell(w) == s
  {
    LacksIs(s, SPACE);
    LacksIs(s, '>');
    IndexOfIsFirst(s, '>');
    var k := IndexOf(s, '>');
    if k >= 0 {
      Parts(s, k);
      w := if k == 0 then Out(s[1..]) else if k == 1 then Err(s[0], s[2..]) else Glued(s[..k], s[k + 1..]);
    } else if !Lacks(s, '<') {
      assert s == [s[0]] + s[1..];
      w := In(s[0], s[1..]);
    } else if !Lacks(s, '=') && s[0] != '=' && Lacks(s, '-') {
      w := Setting(s);
    } else if s[0] == '$' {
      assert s == "$" + s[1..];
      w := Variable(s[1..]);
    } else {
      w := Arg(s);
    }
  }

  // The next word, after those of ws.
  lemma TakeNext(env: string -> string, ws: seq<Word>, w: Word)
    requires WellTyped(w)
    ensures Take(env, ExecFor(env, ws), Spell(w)) == ExecFor(env, ws + [w])
  {
    var all := ws + [w];
    assert all[..|all| - 1] == ws && all[|all| - 1] == w;
    assert Redirects(all) <==> Redirects(ws) || IsRedirection(w) by {
      assert IsRedirection(w) ==> IsRedirection(all[|ws|]);
      assert forall i {:trigger ws[i]} :: 0 <= i < |ws| ==> ws[i] == all[i];
    }
    match w
    case Arg(text) => TakePlain(env, ExecFor(env, ws), text);
    case Variable(name) => TakePlain(env, ExecFor(env, ws), "$" + name);
    case Setting(text) => TakeSetting(env, ExecFor(env, ws), text);
    case _ => TakeRedirection(env, ExecFor(env, ws), w);
  }

  lemma {:induction false} TakeAllSpelled(env: string -> string, ws: seq<Word>)
    requires AllWellTyped(ws)
    ensures TakeAll(env, EmptyExec(), Spelled(ws)) == ExecFor(env, ws)
    decreases |ws|
  {
    if ws != [] {
      var init, w := ws[..|ws| - 1], ws[|ws| - 1];
      assert AllWellTyped(init) by {
        assert forall i {:trigger init[i]} :: 0 <= i < |init| ==> init[i] == ws[i];
      }
      TakeAllSpelled(env, init);
      assert Spelled(ws) == Spelled(init) + [Spell(w)];
      TakeAllSnoc(env, EmptyExec(), Spelled(init), Spell(w));
      TakeNext(env, init, w);
      assert init + [w] == ws;
    }
  }

  lemma SpelledAreWords(ws: seq<Word>)
    requires AllWellTyped(ws)
    ensures forall i {:trigger Spelled(ws)[i]} :: 0 <= i < |ws| ==> IsWord(Spelled(ws)[i])
  {
    forall i | 0 <= i < |ws| ensures IsWord(Spelled(ws)[i]) {
      SpelledIsWord(ws[i]);
    }
  }

  /** A typed command means what its words mean: its plain words and the values of its
      variables are the arguments, its key=value words the settings, and the last file
      after >, < and 2> is where output, input and errors go; a word with a > further
      inside is dropped. Every word has its meaning (KindOfWord). */
  lemma WordsMeanCommand(env: string -> string, ws: seq<Word>)
    requires ws != [] && AllWellTyped(ws)
    ensures ExecOf(env, JoinWords(Spelled(ws))) == ExecFor(env, ws)
  {
    SpelledAreWords(ws);
    TokensOfWords(Spelled(ws));
    TakeAllSpelled(env, ws);
  }

  // ---------------------------------------------------------------------
  // In the foreground and in the background

  // Every & comes directly after a >.
  predicate Guarded(s: string) { forall j {:trigger s[j]} :: 0 <= j < |s| && s[j] == '&' ==> j > 0 && s[j - 1] == '>' }

  // The text of a word that keeps its command in the foreground.
  predicate KeepsForeground(w: Word) { Guarded(Spell(w)) }

  lemma GuardedConcat(a: string, b: string)
    requires Guarded(a) && Guarded(b)
    ensures Guarded(a + " " + b)
  {
    var s := a + " " + b;
    forall j | 0 <= j < |s| && s[j] == '&' ensures j > 0 && s[j - 1] == '>' {
      if j < |a| {
        assert s[j] == a[j] && (j > 0 ==> s[j - 1] == a[j - 1]);
      } else {
        var k := j - |a| - 1;
        assert s[j] == b[k] && (k > 0 ==> s[j - 1] == b[k - 1]);
      }
    }
  }

  lemma {:induction false} GuardedWords(ws: seq<string>)
    requires ws != [] && forall i {:trigger ws[i]} :: 0 <= i < |ws| ==> Guarded(ws[i])
    ensures Guarded(JoinWords(ws))
    decreases |ws|
  {
    assert Guarded(ws[0]);
    if |ws| > 1 {
      GuardedWords(ws[1..]);
      GuardedConcat(ws[0], JoinWords(ws[1..]));
    }
  }

  lemma GuardedIsForeground(s: string)
    requires Guarded(s)
    ensures !InBackground(s)
  {
    IndexOfIsFirst(s, '&');
  }

  lemma {:induction false} JoinedIsNotEmpty(ws: seq<string>)
    requires ws != [] && ws[0] != ""
    ensures JoinWords(ws) != "" && JoinWords(ws)[0] == ws[0][0]
  {
  }

  /** With every & directly after a >, as in 2>&1, the command runs in the foreground,
      and is the one that its words mean. */
  lemma ForegroundCommand(env: string -> string, ws: seq<Word>)
    requires ws != [] && AllWellTyped(ws) && forall i {:trigger ws[i]} :: 0 <= i < |ws| ==> KeepsForeground(ws[i])
    ensures Parsed(env, JoinWords(Spelled(ws))) == Simple(ExecFor(env, ws))
  {
    var words := Spelled(ws);
    forall i | 0 <= i < |words| ensures Guarded(words[i]) {
      assert KeepsForeground(ws[i]);
    }
    GuardedWords(words);
    GuardedIsForeground(JoinWords(words));
    WordsMeanCommand(env, ws);
    SpelledAreWords(ws);
    JoinedIsNotEmpty(words);
  }

  // A space at the end of the text adds no word.
  lemma {:induction false} TrailingSpace(ws: seq<string>)
    requires ws != [] && forall i {:trigger ws[i]} :: 0 <= i < |ws| ==> IsWord(ws[i])
    ensures Tokens(JoinWords(ws) + " ") == ws
    decreases |ws|
  {
    assert IsWord(ws[0]);
    if |ws| == 1 {
      WordIsToken(ws[0], "");
      assert ws[0] + " " + "" == ws[0] + " ";
      assert Tokens("") == [];
    } else {
      var rest := JoinWords(ws[1..]) + " ";
      TrailingSpace(ws[1..]);
      WordIsToken(ws[0], rest);
      assert JoinWords(ws) + " " == ws[0] + " " + rest;
    }
  }

  /** An & as the last word, when there is none before it, puts the command that the
      other words mean into the background. */
  lemma BackgroundCommand(env: string -> string, ws: seq<Word>)
    requires ws != [] && AllWellTyped(ws) && forall i {:trigger ws[i]} :: 0 <= i < |ws| ==> Lacks(Spell(ws[i]), '&')
    ensures Parsed(env, JoinWords(Spelled(ws)) + " &") == Back(ExecFor(env, ws))
  {
    var words := Spelled(ws);
    var text := JoinWords(words) + " ";
    var line := JoinWords(words) + " &";
    forall i | 0 <= i < |words| ensures IndexOf(words[i], '&') < 0 {
      assert Lacks(Spell(ws[i]), '&');
      LacksIs(words[i], '&');
    }
    AbsentFromWords(words, '&');
    forall j | 0 <= j < |text| ensures line[j] != '&' && line[j] == text[j] {
      assert j < |JoinWords(words)| ==> line[j] == JoinWords(words)[j];
    }
    IndexAt(line, '&', |text|);
    assert line[..|text|] == text;
    SpelledAreWords(ws);
    TrailingSpace(words);
    TakeAllSpelled(env, ws);
  }

  // The words of ws, 2>&1 and &.
  function Lost(ws: seq<Word>): seq<Word> { ws + [Err('2', "&1"), Arg("&")] }

  lemma LostWords(ws: seq<Word>)
    requires AllWellTyped(ws)
    ensures AllWellTyped(Lost(ws)) && Spelled(Lost(ws)) == Spelled(ws) + ["2>&1"] + ["&"]
  {
    assert Spell(Err('2', "&1")) == "2>&1";
    forall i | 0 <= i < |Lost(ws)| ensures WellTyped(Lost(ws)[i]) {
      assert i < |ws| ==> Lost(ws)[i] == ws[i];
    }
  }

  lemma LostArguments(env: string -> string, ws: seq<Word>)
    ensures Arguments(env, Lost(ws)) == Arguments(env, ws) + ["&"]
  {
    assert Lost(ws)[..|ws| + 1] == ws + [Err('2', "&1")] && (ws + [Err('2', "&1")])[..|ws|] == ws;
  }

  /** After 2>&1 it does not: only the first & of the text is looked at. The command
      stays in the foreground, and its program gets the & as an argument. */
  lemma BackgroundIsLost(env: string -> string, ws: seq<Word>)
    requires AllWellTyped(ws) && forall i {:trigger ws[i]} :: 0 <= i < |ws| ==> Lacks(Spell(ws[i]), '&')
    ensures Parsed(env, JoinWords(Spelled(Lost(ws)))) == Simple(ExecFor(env, Lost(ws)))
    ensures Arguments(env, Lost(ws)) == Arguments(env, ws) + ["&"]
  {
    LostWords(ws);
    WordsMeanCommand(env, Lost(ws));
    FirstAmpersand(ws);
    LostArguments(env, ws);
  }

  // Where the first & of such a text is.
  lemma FirstAmpersand(ws: seq<Word>)
    requires AllWellTyped(ws) && forall i {:trigger ws[i]} :: 0 <= i < |ws| ==> Lacks(Spell(ws[i]), '&')
    ensures var s := JoinWords(Spelled(Lost(ws))); s != "" && !InBackground(s)
  {
    var words, all := Spelled(ws), Spelled(Lost(ws));
    LostWords(ws);
    JoinSnoc(words + ["2>&1"], "&");
    if ws == [] {
      assert words + ["2>&1"] == ["2>&1"];
      IndexAt(JoinWords(all), '&', 2);
    } else {
      JoinSnoc(words, "2>&1");
      forall i | 0 <= i < |words| ensures IndexOf(words[i], '&') < 0 {
        assert Lacks(Spell(ws[i]), '&');
        LacksIs(words[i], '&');
      }
      AbsentFromWords(words, '&');
      var s, plain := JoinWords(all), JoinWords(words);
      assert s == plain + " 2>&1 &";
      forall j | 0 <= j < |plain| + 3 ensures s[j] != '&' {
        assert j < |plain| ==> s[j] == plain[j];
        assert j >= |plain| ==> s[j] == " 2>&1 &"[j - |plain|];
      }
      IndexAt(s, '&', |plain| + 3);
    }
  }

  // ---------------------------------------------------------------------
  // From the text of a pipeline to the descriptors of its programs

  // What a redirected stream refers to, by the word that redirects it.
  function InputFile(a: File, ws: seq<Word>): File { if LastIn(ws) == "" then a else Opened(LastIn(ws), Reading) }

  function OutputFile(b: File, ws: seq<Word>): File { if LastOut(ws) == "" then b else Opened(LastOut(ws), Rewriting) }

  function ErrorFile(b: File, c: File, ws: seq<Word>): File {
    if LastErr(ws) == "" then c
    else if LastErr(ws) == "&1" then OutputFile(b, ws)
    else Opened(LastErr(ws), Writing)
  }

  lemma {:induction false} FilesNeedRedirections(ws: seq<Word>)
    requires !Redirects(ws)
    ensures LastOut(ws) == LastIn(ws) == LastErr(ws) == ""
    decreases |ws|
  {
    if ws != [] {
      var init := ws[..|ws| - 1];
      assert !IsRedirection(ws[|ws| - 1]);
      assert !Redirects(init) by {
        assert forall i {:trigger init[i]} :: 0 <= i < |init| ==> init[i] == ws[i];
      }
      FilesNeedRedirections(init);
    }
  }

  /** Input comes from the last <file, output goes to the last >file, which is emptied,
      and errors to the last 2>file, which is not, or after 2>&1 to where output goes;
      a stream without a word of its own is left as it was. */
  lemma StreamsOfWords(env: string -> string, ws: seq<Word>, a: File, b: File, c: File)
    ensures Started(ExecFor(env, ws), Three(a, b, c)) ==
            Runs(ExecFor(env, ws), Three(InputFile(a, ws), OutputFile(b, ws), ErrorFile(b, c, ws)))
  {
    if !Redirects(ws) {
      FilesNeedRedirections(ws);
    }
  }

  // A command in a pipeline.
  predicate IsCommand(ws: seq<Word>) {
    ws != [] && forall i {:trigger ws[i]} :: 0 <= i < |ws| ==> WellTyped(ws[i]) && KeepsForeground(ws[i]) && Lacks(Spell(ws[i]), '|')
  }

  predicate AreCommands(line: seq<seq<Word>>) { forall k {:trigger line[k]} :: 0 <= k < |line| ==> IsCommand(line[k]) }

  // The text of a command.
  function Text(ws: seq<Word>): string
    requires ws != []
  {
    JoinWords(Spelled(ws))
  }

  // The text of a line: its commands with a pipe, and spaces around it, between them.
  function Typed(line: seq<seq<Word>>): string
    requires line != [] && AreCommands(line)
    decreases |line|
  {
    if |line| == 1 then Text(line[0]) else Text(line[0]) + " | " + Typed(line[1..])
  }

  // What parse_line splits it into: the space before a pipe stays with its command.
  function Texts(line: seq<seq<Word>>): (segs: seq<string>)
    requires line != [] && AreCommands(line)
    ensures |segs| == |line|
    decreases |line|
  {
    if |line| == 1 then [Text(line[0])] else [Text(line[0]) + " "] + Texts(line[1..])
  }

  lemma {:induction false} TextAt(line: seq<seq<Word>>, k: nat)
    requires AreCommands(line) && k < |line|
    ensures IsCommand(line[k]) && Texts(line)[k] == if k + 1 < |line| then Text(line[k]) + " " else Text(line[k])
    decreases |line|
  {
    if k > 0 {
      TextAt(line[1..], k - 1);
    }
  }

  // A space after the text of a command changes nothing.
  lemma SpaceAfterCommand(env: string -> string, ws: seq<Word>)
    requires IsCommand(ws)
    ensures Parsed(env, Text(ws) + " ") == Parsed(env, Text(ws)) == Simple(ExecFor(env, ws))
  {
    var words := Spelled(ws);
    assert AllWellTyped(ws);
    ForegroundCommand(env, ws);
    SpelledAreWords(ws);
    TrailingSpace(words);
    TakeAllSpelled(env, ws);
    forall i | 0 <= i < |words| ensures Guarded(words[i]) {
      assert KeepsForeground(ws[i]);
    }
    GuardedWords(words);
    GuardedConcat(Text(ws), "");
    assert Text(ws) + " " + "" == Text(ws) + " ";
    GuardedIsForeground(Text(ws) + " ");
  }

  lemma CommandText(ws: seq<Word>)
    requires IsCommand(ws)
    ensures Text(ws) != "" && Text(ws)[0] != SPACE && IndexOf(Text(ws), '|') < 0 && IndexOf(Text(ws) + " ", '|') < 0
  {
    var words := Spelled(ws);
    assert AllWellTyped(ws);
    SpelledAreWords(ws);
    forall i | 0 <= i < |words| ensures IndexOf(words[i], '|') < 0 {
      assert Lacks(Spell(ws[i]), '|');
      LacksIs(words[i], '|');
    }
    AbsentFromWords(words, '|');
    LacksIs(Text(ws), '|');
    LacksIs(Text(ws) + " ", '|');
    JoinedIsNotEmpty(words);
    IndexOfIsFirst(words[0], SPACE);
  }

  // The line up to its first pipe, and what follows after the space.
  lemma TypedParts(first: string, rest: string)
    requires IndexOf(first, '|') < 0 && rest != "" && rest[0] != SPACE
    ensures var s := first + "| " + rest; IndexOf(s, '|') >= 0 && LeftPart(s) == first && RightPart(s) == rest
  {
    var s := first + "| " + rest;
    assert s == first + ['|'] + (" " + rest);
    IndexAfter(first, '|', " " + rest);
    assert s[..|first|] == first && s[|first| + 1..] == " " + rest;
    assert (" " + rest)[1..] == rest && TrimLeft(rest) == rest;
  }

  lemma SpacedPipe(a: string, b: string)
    ensures a + " | " + b == (a + " ") + "| " + b
  {
    assert " | " == " " + "| ";
    assert a + (" " + "| ") == (a + " ") + "| ";
  }

  // A line of one command, and one with a command before it.
  lemma SegmentsOfOne(s: string)
    requires IndexOf(s, '|') < 0
    ensures Segments(s) == [s]
  {
    SegmentsStep(s);
  }

  lemma SegmentsOfMore(first: string, rest: string)
    requires IndexOf(first, '|') < 0 && rest != "" && rest[0] != SPACE
    ensures Segments(first + "| " + rest) == [first] + Segments(rest)
  {
    TypedParts(first, rest);
    var s := first + "| " + rest;
    SegmentsStep(s);
    assert Segments(s) == [Segments(s)[0]] + Segments(s)[1..];
  }

  lemma {:induction false} TypedSegments(line: seq<seq<Word>>)
    requires line != [] && AreCommands(line)
    ensures Typed(line) != "" && Typed(line)[0] != SPACE && Segments(Typed(line)) == Texts(line)
    decreases |line|
  {
    var first := line[0];
    assert IsCommand(first);
    CommandText(first);
    if |line| == 1 {
      SegmentsOfOne(Text(first));
    } else {
      TypedSegments(line[1..]);
      SpacedPipe(Text(first), Typed(line[1..]));
      SegmentsOfMore(Text(first) + " ", Typed(line[1..]));
    }
  }

  lemma {:induction false} AllAreCommands(segs: seq<string>)
    requires forall k {:trigger segs[k]} :: 0 <= k < |segs| ==> segs[k] != ""
    ensures Commands(segs) == segs
    decreases |segs|
  {
    if segs != [] {
      assert segs[0] != "";
      AllAreCommands(segs[1..]);
    }
  }

  lemma {:induction false} ExecsAre(env: string -> string, segs: seq<string>, i: nat)
    requires i < |segs| && forall k {:trigger segs[k]} :: 0 <= k < |segs| ==> segs[k] != ""
    ensures Execs(env, segs)[i] == Parsed(env, segs[i])
    decreases |segs|
  {
    assert segs[0] != "";
    if i > 0 {
      ExecsAre(env, segs[1..], i - 1);
    }
  }

  /** A typed line of commands between pipes runs each of them with the arguments that
      its words mean, its input and output on the pipes to its neighbours, and its own
      redirections on top of that. */
  lemma TypedPipeline(env: string -> string, line: seq<seq<Word>>, i: nat)
    requires AreCommands(line) && i < |line|
    ensures var c := ParsedLine(env, Typed(line));
            && NoNulls(c)
            && var ps, b := Processes(c, Three(Std(STDIN), Std(STDOUT), Std(STDERR)), 0), Output(Std(STDOUT), i, |line|, 0);
               && |ps| == 2 * |line| - 1
               && ps[i] == Runs(ExecFor(env, line[i]),
                                Three(InputFile(Input(Std(STDIN), i, 0), line[i]), OutputFile(b, line[i]), ErrorFile(b, Std(STDERR), line[i])))
  {
    var segs := Texts(line);
    TypedSegments(line);
    forall k: nat | k < |segs| ensures segs[k] != "" {
      TextAt(line, k);
      CommandText(line[k]);
    }
    AllAreCommands(segs);
    LineIsChain(env, Typed(line));
    var es := Execs(env, segs);
    ExecsAre(env, segs, i);
    TextAt(line, i);
    SpaceAfterCommand(env, line[i]);
    CommandIsConnected(es, Std(STDIN), Std(STDOUT), Std(STDERR), 0, i);
    StreamsOfWords(env, line[i], Input(Std(STDIN), i, 0), Output(Std(STDOUT), i, |line|, 0), Std(STDERR));
  }
}

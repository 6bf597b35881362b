/** Parsing a command line into a tree of pipes (shell/parsing.c, shell/utils.c), in
    the buffer that holds it. First what a text means, then the code that cuts it
    up in place. */
module ShellParse {

  const NUL := '\0'
  const SPACE := ' '

  /** A simple command: arguments, environment settings, and where its standard
      streams are redirected to (empty where they are not). */
  datatype Exec = Exec(argv: seq<string>, eargv: seq<string>, outFile: string, inFile: string, errFile: string, redir: bool)

  // NoCmd stands for a null pointer, Back for a command in the background.
  datatype Cmd = NoCmd | Simple(e: Exec) | Back(e: Exec) | Pipe(left: Cmd, right: Cmd)

  // The first position of c in s from i on, or -1.
  function IndexFrom(s: string, c: char, i: nat): (k: int)
    requires i <= |s|
    ensures -1 <= k < |s|
    decreases |s| - i
  {
    if i == |s| then -1 else if s[i] == c then i else IndexFrom(s, c, i + 1)
  }

  function IndexOf(s: string, c: char): (k: int)
    ensures -1 <= k < |s|
  {
    IndexFrom(s, c, 0)
  }

  lemma {:induction false} IndexFromIsFirst(s: string, c: char, i: nat)
    requires i <= |s|
    ensures var k := IndexFrom(s, c, i);
            if k < 0 then forall j {:trigger s[j]} :: i <= j < |s| ==> s[j] != c
            else i <= k && s[k] == c && forall j {:trigger s[j]} :: i <= j < k ==> s[j] != c
    decreases |s| - i
  {
    if i < |s| && s[i] != c {
      IndexFromIsFirst(s, c, i + 1);
    }
  }

  lemma IndexOfIsFirst(s: string, c: char)
    ensures var k := IndexOf(s, c);
            if k < 0 then forall j {:trigger s[j]} :: 0 <= j < |s| ==> s[j] != c
            else s[k] == c && forall j {:trigger s[j]} :: 0 <= j < k ==> s[j] != c
  {
    IndexFromIsFirst(s, c, 0);
  }

  lemma IndexAt(s: string, c: char, i: nat)
    requires i < |s| && s[i] == c && forall j {:trigger s[j]} :: 0 <= j < i ==> s[j] != c
    ensures IndexOf(s, c) == i
  {
    IndexOfIsFirst(s, c);
  }

  function TrimLeft(s: string): (r: string)
    ensures |r| <= |s|
  {
    if s != "" && s[0] == SPACE then TrimLeft(s[1..]) else s
  }

  // ---------------------------------------------------------------------
  // Simple commands

  // The word at the front of s.
  function Token(s: string): (w: string)
    ensures |w| <= |s| && s[..|w|] == w
  {
    if s == "" || s[0] == SPACE then "" else [s[0]] + Token(s[1..])
  }

  // What is left of s after its first word and one space.
  function Rest(s: string): (r: string)
    requires s != ""
    ensures |r| < |s|
  {
    if |Token(s)| < |s| then s[|Token(s)| + 1..] else ""
  }

  // The words of s; two spaces in a row enclose an empty one.
  function Tokens(s: string): (ts: seq<string>)
    decreases |s|
  {
    if s == "" then [] else [Token(s)] + Tokens(Rest(s))
  }

  // expand_environ_var, where env gives the value for a word that begins with $.
  function Expanded(env: string -> string, tok: string): string { if tok != "" && tok[0] == '$' then env(tok) else tok }

  // What one word adds to a command.
  function Take(env: string -> string, e: Exec, tok: string): Exec {
    var out, inp := IndexOf(tok, '>'), IndexOf(tok, '<');
    if out >= 0 then
      Exec(e.argv, e.eargv, if out == 0 then tok[1..] else e.outFile, e.inFile, if out == 1 then tok[2..] else e.errFile, true)
    else if inp >= 0 then Exec(e.argv, e.eargv, e.outFile, tok[1..], e.errFile, true)
    else if IndexOf(tok, '=') > 0 && IndexOf(tok, '-') < 0 then Exec(e.argv, e.eargv + [tok], e.outFile, e.inFile, e.errFile, e.redir)
    else if Expanded(env, tok) == "" then e
    else Exec(e.argv + [Expanded(env, tok)], e.eargv, e.outFile, e.inFile, e.errFile, e.redir)
  }

  function TakeAll(env: string -> string, e: Exec, toks: seq<string>): Exec
    decreases |toks|
  {
    if toks == [] then e else TakeAll(env, Take(env, e, toks[0]), toks[1..])
  }

  function EmptyExec(): Exec { Exec([], [], "", "", "", false) }

  function ExecOf(env: string -> string, s: string): Exec { TakeAll(env, EmptyExec(), Tokens(s)) }

  /** The first & of the text is not part of a redirection: the command runs in the
      background, and ends there. */
  predicate InBackground(s: string) {
    var k := IndexOf(s, '&');
    k == 0 || (k > 0 && s[k - 1] != '>')
  }

  function Parsed(env: string -> string, s: string): Cmd {
    if s == "" then NoCmd
    else if InBackground(s) then Back(ExecOf(env, s[..IndexOf(s, '&')]))
    else Simple(ExecOf(env, s))
  }

  // A word of a command.
  predicate IsWord(w: string) { w != "" && IndexOf(w, SPACE) < 0 }

  // A word that is neither a redirection, nor a setting, nor a variable; an option like
  // --key=value is no setting.
  predicate IsArgument(w: string) {
    && IsWord(w) && IndexOf(w, '>') < 0 && IndexOf(w, '<') < 0 && IndexOf(w, '&') < 0
    && (IndexOf(w, '=') <= 0 || IndexOf(w, '-') >= 0) && w[0] != '$'
  }

  function JoinWords(ws: seq<string>): string
    requires ws != []
  {
    if |ws| == 1 then ws[0] else ws[0] + " " + JoinWords(ws[1..])
  }

  lemma {:induction false} TokenIs(s: string, n: nat)
    requires n <= |s| && (n < |s| ==> s[n] == SPACE) && forall j {:trigger s[j]} :: 0 <= j < n ==> s[j] != SPACE
    ensures Token(s) == s[..n]
    decreases n
  {
    if n > 0 {
      TokenIs(s[1..], n - 1);
      assert s[..n] == [s[0]] + s[1..][..n - 1];
    }
  }

  lemma WordIsToken(w: string, rest: string)
    requires IsWord(w)
    ensures Token(w) == w && Rest(w) == "" && Token(w + " " + rest) == w && Rest(w + " " + rest) == rest
  {
    IndexOfIsFirst(w, SPACE);
    TokenIs(w, |w|);
    var s := w + " " + rest;
    forall j | 0 <= j < |w| ensures s[j] != SPACE {
      assert s[j] == w[j];
    }
    TokenIs(s, |w|);
    assert s[..|w|] == w && s[|w| + 1..] == rest;
  }

  /** Words joined by single spaces are what the tokens of the text are. */
  lemma {:induction false} TokensOfWords(ws: seq<string>)
    requires ws != [] && forall i {:trigger ws[i]} :: 0 <= i < |ws| ==> IsWord(ws[i])
    ensures Tokens(JoinWords(ws)) == ws
    decreases |ws|
  {
    assert IsWord(ws[0]);
    if |ws| == 1 {
      WordIsToken(ws[0], "");
      assert Tokens("") == [];
    } else {
      TokensOfWords(ws[1..]);
      WordIsToken(ws[0], JoinWords(ws[1..]));
    }
  }

  lemma {:induction false} ArgumentsInOrder(env: string -> string, e: Exec, ws: seq<string>)
    requires forall i {:trigger ws[i]} :: 0 <= i < |ws| ==> IsArgument(ws[i])
    ensures TakeAll(env, e, ws) == Exec(e.argv + ws, e.eargv, e.outFile, e.inFile, e.errFile, e.redir)
    decreases |ws|
  {
    if ws == [] {
      assert e.argv + ws == e.argv;
    } else {
      assert IsArgument(ws[0]);
      ArgumentsInOrder(env, Take(env, e, ws[0]), ws[1..]);
      assert (e.argv + [ws[0]]) + ws[1..] == e.argv + ws;
    }
  }

  lemma {:induction false} AbsentFromWords(ws: seq<string>, c: char)
    requires ws != [] && c != SPACE && forall i {:trigger ws[i]} :: 0 <= i < |ws| ==> IndexOf(ws[i], c) < 0
    ensures forall j {:trigger JoinWords(ws)[j]} :: 0 <= j < |JoinWords(ws)| ==> JoinWords(ws)[j] != c
    decreases |ws|
  {
    IndexOfIsFirst(ws[0], c);
    if |ws| > 1 {
      AbsentFromWords(ws[1..], c);
      var s, rest := JoinWords(ws), JoinWords(ws[1..]);
      forall j | 0 <= j < |s| ensures s[j] != c {
        assert s == ws[0] + " " + rest;
        assert j > |ws[0]| ==> s[j] == rest[j - |ws[0]| - 1];
      }
    }
  }

  /** A command of plain words runs with exactly these words as arguments. */
  lemma {:induction false} WordsAreArguments(env: string -> string, ws: seq<string>)
    requires ws != [] && forall i {:trigger ws[i]} :: 0 <= i < |ws| ==> IsArgument(ws[i])
    ensures Parsed(env, JoinWords(ws)) == Simple(Exec(ws, [], "", "", "", false))
  {
    assert IsArgument(ws[0]);
    TokensOfWords(ws);
    ArgumentsInOrder(env, EmptyExec(), ws);
    AbsentFromWords(ws, '&');
    IndexOfIsFirst(JoinWords(ws), '&');
  }

  lemma {:induction false} JoinSnoc(ws: seq<string>, w: string)
    requires ws != []
    ensures JoinWords(ws + [w]) == JoinWords(ws) + " " + w
    decreases |ws|
  {
    if |ws| > 1 {
      JoinSnoc(ws[1..], w);
      assert (ws + [w])[1..] == ws[1..] + [w];
    }
  }

  lemma {:induction false} TakeAllSnoc(env: string -> string, e: Exec, ws: seq<string>, w: string)
    ensures TakeAll(env, e, ws + [w]) == Take(env, TakeAll(env, e, ws), w)
    decreases |ws|
  {
    if ws == [] {
      assert [w][1..] == [];
    } else {
      TakeAllSnoc(env, Take(env, e, ws[0]), ws[1..], w);
      assert (ws + [w])[1..] == ws[1..] + [w];
    }
  }

  const ERRORS_TO_OUTPUT := "2>&1"

  lemma ErrorsToOutputIs(env: string -> string, e: Exec)
    ensures IsWord(ERRORS_TO_OUTPUT) && Take(env, e, ERRORS_TO_OUTPUT) == Exec(e.argv, e.eargv, e.outFile, e.inFile, "&1", true)
  {
    IndexOfIsFirst(ERRORS_TO_OUTPUT, SPACE);
    IndexAt(ERRORS_TO_OUTPUT, '>', 1);
  }

  lemma RedirectedIsInForeground(plain: string)
    requires forall j {:trigger plain[j]} :: 0 <= j < |plain| ==> plain[j] != '&'
    ensures !InBackground(plain + " " + ERRORS_TO_OUTPUT)
  {
    var s := plain + " " + ERRORS_TO_OUTPUT;
    assert s == plain + " 2>&1";
    forall j | 0 <= j < |plain| + 3 ensures s[j] != '&' {
      assert j < |plain| ==> s[j] == plain[j];
      assert j >= |plain| ==> s[j] == " 2>&1"[j - |plain|];
    }
    IndexAt(s, '&', |plain| + 3);
  }

  lemma {:induction false} RedirectedWords(env: string -> string, ws: seq<string>)
    requires ws != [] && forall i {:trigger ws[i]} :: 0 <= i < |ws| ==> IsArgument(ws[i])
    ensures ExecOf(env, JoinWords(ws + [ERRORS_TO_OUTPUT])) == Exec(ws, [], "", "", "&1", true)
  {
    var words := ws + [ERRORS_TO_OUTPUT];
    ErrorsToOutputIs(env, Exec(ws, [], "", "", "", false));
    forall i | 0 <= i < |words| ensures IsWord(words[i]) {
      assert i < |ws| ==> IsArgument(ws[i]);
    }
    TokensOfWords(words);
    ArgumentsInOrder(env, EmptyExec(), ws);
    TakeAllSnoc(env, EmptyExec(), ws, ERRORS_TO_OUTPUT);
  }

  /** With 2>&1 after its words, a command stays in the foreground, and its errors go
      where its output goes. */
  lemma {:induction false} ErrorsFollowOutput(env: string -> string, ws: seq<string>)
    requires ws != [] && forall i {:trigger ws[i]} :: 0 <= i < |ws| ==> IsArgument(ws[i])
    ensures Parsed(env, JoinWords(ws + [ERRORS_TO_OUTPUT])) == Simple(Exec(ws, [], "", "", "&1", true))
  {
    RedirectedWords(env, ws);
    AbsentFromWords(ws, '&');
    RedirectedIsInForeground(JoinWords(ws));
    JoinSnoc(ws, ERRORS_TO_OUTPUT);
  }

  // ---------------------------------------------------------------------
  // Lines

  function PipeCreate(left: Cmd, right: Cmd): Cmd { if right == NoCmd then left else Pipe(left, right) }

  // The line up to its first pipe, and what comes after the pipe and the spaces.
  function LeftPart(s: string): string {
    if IndexOf(s, '|') < 0 then s else s[..IndexOf(s, '|')]
  }

  function AfterPipe(s: string): string {
    if IndexOf(s, '|') < 0 then "" else s[IndexOf(s, '|') + 1..]
  }

  function RightPart(s: string): (r: string)
    ensures |r| <= |s| && (r != "" ==> |r| < |s|)
  {
    TrimLeft(AfterPipe(s))
  }

  /** parse_line on the text of the line. */
  function ParsedLine(env: string -> string, s: string): Cmd
    decreases |s|
  {
    PipeCreate(Parsed(env, LeftPart(s)),
               if IndexOf(RightPart(s), '|') < 0 then Parsed(env, RightPart(s)) else ParsedLine(env, RightPart(s)))
  }

  // The segments of a line: split at the pipes, without the spaces after them.
  function Segments(s: string): (segs: seq<string>)
    ensures |segs| >= 1
    decreases |s|
  {
    var k := IndexOf(s, '|');
    if k < 0 then [s] else [s[..k]] + Segments(TrimLeft(s[k + 1..]))
  }

  // The tree with the segments as leaves in order, nested to the right.
  function Nested(env: string -> string, segs: seq<string>): Cmd
    requires segs != []
    decreases |segs|
  {
    if |segs| == 1 then Parsed(env, segs[0]) else Pipe(Parsed(env, segs[0]), Nested(env, segs[1..]))
  }

  // The segments before the first empty one.
  function Commands(segs: seq<string>): (r: seq<string>)
    decreases |segs|
  {
    if segs == [] || segs[0] == "" then [] else [segs[0]] + Commands(segs[1..])
  }

  /** Only the end of a line may have empty segments: "a |" is parsed like "a". */
  predicate NoGaps(segs: seq<string>) {
    segs != [] && segs[0] != "" && forall i :: |Commands(segs)| <= i < |segs| ==> segs[i] == ""
  }

  // No pipe in the tree has a null pointer for a command.
  predicate NoNulls(c: Cmd) { c.Simple? || c.Back? || (c.Pipe? && NoNulls(c.left) && NoNulls(c.right)) }

  // What pipe_cmd_create makes of the segments, from the right.
  function Piped(env: string -> string, segs: seq<string>): Cmd
    requires segs != []
    decreases |segs|
  {
    if |segs| == 1 then Parsed(env, segs[0]) else PipeCreate(Parsed(env, segs[0]), Piped(env, segs[1..]))
  }

  lemma SegmentsStep(s: string)
    ensures if IndexOf(s, '|') < 0 then Segments(s) == [s]
            else |Segments(s)| > 1 && Segments(s)[0] == LeftPart(s) && Segments(s)[1..] == Segments(RightPart(s))
  {
  }

  /** What parse_line makes of any line depends on its segments alone. */
  lemma {:induction false} ParsesToPiped(env: string -> string, s: string)
    ensures ParsedLine(env, s) == Piped(env, Segments(s))
    decreases |s|
  {
    SegmentsStep(s);
    if IndexOf(s, '|') >= 0 {
      var right := RightPart(s);
      ParsesToPiped(env, right);
      SegmentsStep(right);
    }
  }

  // Nothing but empty segments gives no command.
  lemma {:induction false} PipedIsNothing(env: string -> string, segs: seq<string>)
    requires segs != []
    ensures Piped(env, segs) == NoCmd <==> forall i :: 0 <= i < |segs| ==> segs[i] == ""
    decreases |segs|
  {
    if |segs| > 1 {
      PipedIsNothing(env, segs[1..]);
      assert forall i :: 0 <= i < |segs[1..]| ==> segs[1..][i] == segs[i + 1];
    }
  }

  lemma GapsFirstRest(segs: seq<string>)
    requires |segs| > 1 && segs[0] != ""
    ensures NoGaps(segs) <==> NoGaps(segs[1..]) || forall i :: 1 <= i < |segs| ==> segs[i] == ""
  {
    var rest := segs[1..];
    assert |Commands(segs)| == 1 + |Commands(rest)|;
    assert forall i :: 0 <= i < |rest| ==> rest[i] == segs[i + 1];
    if NoGaps(segs) && segs[1] != "" {
      forall i | |Commands(rest)| <= i < |rest| ensures rest[i] == "" {
        assert segs[i + 1] == "";
      }
    }
    if NoGaps(rest) {
      forall i | |Commands(segs)| <= i < |segs| ensures segs[i] == "" {
        assert rest[i - 1] == "";
      }
    }
  }

  /** Segments that are empty at most at the end give the tree with the others as
      leaves in order, nested to the right. */
  lemma {:induction false} PipedIsNested(env: string -> string, segs: seq<string>)
    requires NoGaps(segs)
    ensures Commands(segs) != [] && Piped(env, segs) == Nested(env, Commands(segs))
    decreases |segs|
  {
    if |segs| > 1 {
      var rest := segs[1..];
      GapsFirstRest(segs);
      PipedIsNothing(env, rest);
      assert forall i :: 0 <= i < |rest| ==> rest[i] == segs[i + 1];
      if NoGaps(rest) {
        PipedIsNested(env, rest);
        assert Commands(segs)[1..] == Commands(rest);
      } else {
        assert rest[0] == "";
      }
    }
  }

  /** The tree has a null pointer for a command exactly when an empty segment
      comes before a nonempty one, or all are empty. */
  lemma {:induction false} NullsAreGaps(env: string -> string, segs: seq<string>)
    requires segs != []
    ensures NoNulls(Piped(env, segs)) <==> NoGaps(segs)
    decreases |segs|
  {
    if |segs| > 1 {
      var rest := segs[1..];
      PipedIsNothing(env, rest);
      NullsAreGaps(env, rest);
      assert forall i :: 0 <= i < |rest| ==> rest[i] == segs[i + 1];
      if segs[0] != "" {
        GapsFirstRest(segs);
      }
    }
  }

  // A segment as it stands after a pipe and the spaces after it.
  predicate IsSegment(s: string) { s != "" && s[0] != SPACE && IndexOf(s, '|') < 0 }

  function Join(segs: seq<string>): string
    requires segs != []
  {
    if |segs| == 1 then segs[0] else segs[0] + "|" + Join(segs[1..])
  }

  lemma IndexAfter(a: string, c: char, b: string)
    requires IndexOf(a, c) < 0
    ensures IndexOf(a + [c] + b, c) == |a|
  {
    IndexOfIsFirst(a, c);
    var s := a + [c] + b;
    forall j | 0 <= j < |a| ensures s[j] != c {
      assert s[j] == a[j];
    }
    IndexAt(s, c, |a|);
  }

  lemma JoinedParts(first: string, rest: string)
    requires IndexOf(first, '|') < 0 && rest != "" && rest[0] != SPACE
    ensures var line := first + "|" + rest; IndexOf(line, '|') >= 0 && LeftPart(line) == first && RightPart(line) == rest
  {
    IndexAfter(first, '|', rest);
    var line := first + "|" + rest;
    assert line[..|first|] == first && line[|first| + 1..] == rest;
  }

  /** Segments and Join are inverse: any segments can be written as a line. */
  lemma {:induction false} SegmentsOfJoin(segs: seq<string>)
    requires segs != [] && forall i {:trigger segs[i]} :: 0 <= i < |segs| ==> IsSegment(segs[i])
    ensures Segments(Join(segs)) == segs && Join(segs) != "" && Join(segs)[0] != SPACE
    decreases |segs|
  {
    assert IsSegment(segs[0]);
    var rest := segs[1..];
    if rest == [] {
      SegmentsStep(segs[0]);
    } else {
      SegmentsOfJoin(rest);
      JoinedParts(segs[0], Join(rest));
      SegmentsStep(Join(segs));
      assert segs == [segs[0]] + rest;
    }
  }

  // ---------------------------------------------------------------------
  // The code, in the buffer

  // The buffer holds the text s from start on, and a NUL after it.
  predicate Holds(b: seq<char>, start: nat, s: string) {
    && start + |s| < |b| && b[start + |s|] == NUL
    && forall i {:trigger s[i]} :: 0 <= i < |s| ==> b[start + i] == s[i] != NUL
  }

  lemma HoldsAt(b: seq<char>, start: nat, s: string, i: nat)
    requires Holds(b, start, s) && i <= |s|
    ensures b[start + i] == (if i < |s| then s[i] else NUL) && (b[start + i] == NUL <==> i == |s|)
  {
  }

  // block_contains, strchr.
  method FindChar(buf: array<char>, start: nat, c: char, ghost s: string) returns (k: int)
    requires Holds(buf[..], start, s) && c != NUL
    ensures k == IndexOf(s, c)
  {
    var i := 0;
    HoldsAt(buf[..], start, s, 0);
    while buf[start + i] != NUL
      invariant i <= |s| && (buf[start + i] == NUL <==> i == |s|)
      invariant forall j :: 0 <= j < i ==> s[j] != c
      decreases |s| - i
    {
      HoldsAt(buf[..], start, s, i);
      if buf[start + i] == c {
        IndexAt(s, c, i);
        return i;
      }
      i := i + 1;
      HoldsAt(buf[..], start, s, i);
    }
    IndexOfIsFirst(s, c);
    return -1;
  }

  lemma {:induction false} TrimIsSuffix(s: string)
    ensures s[|s| - |TrimLeft(s)|..] == TrimLeft(s)
    ensures forall i :: 0 <= i < |s| - |TrimLeft(s)| ==> s[i] == SPACE
    ensures TrimLeft(s) == "" || s[|s| - |TrimLeft(s)|] != SPACE
  {
    if s != "" && s[0] == SPACE {
      TrimIsSuffix(s[1..]);
    }
  }

  // A suffix of the text lies further on in the buffer.
  lemma HoldsSuffix(b: seq<char>, start: nat, s: string, n: nat)
    requires Holds(b, start, s) && n <= |s|
    ensures Holds(b, start + n, s[n..])
  {
    forall i | 0 <= i < |s[n..]| ensures b[start + n + i] == s[n..][i] != NUL {
      assert s[n..][i] == s[n + i];
    }
  }

  // Cutting the text at k.
  lemma HoldsCut(b: seq<char>, start: nat, s: string, k: nat, b': seq<char>)
    requires Holds(b, start, s) && k < |s| && b' == b[start + k := NUL]
    ensures Holds(b', start, s[..k]) && Holds(b', start + k + 1, s[k + 1..])
  {
    HoldsSuffix(b, start, s, k + 1);
    forall i | 0 <= i < k ensures b'[start + i] == s[..k][i] != NUL {
      assert s[..k][i] == s[i];
    }
  }

  // Past the first NUL, there is another one.
  predicate HasRoom(b: seq<char>, start: nat, s: string) {
    Holds(b, start, s) && start + |s| + 1 < |b| && b[start + |s| + 1] == NUL
  }

  method FindEnd(buf: array<char>, start: nat, c: char, ghost s: string) returns (i: nat)
    requires Holds(buf[..], start, s) && c != NUL
    ensures i == if IndexOf(s, c) >= 0 then IndexOf(s, c) else |s|
  {
    i := 0;
    HoldsAt(buf[..], start, s, 0);
    while buf[start + i] != c && buf[start + i] != NUL
      invariant i <= |s| && buf[start + i] == (if i < |s| then s[i] else NUL) && (buf[start + i] == NUL <==> i == |s|)
      invariant forall j :: 0 <= j < i ==> s[j] != c
      decreases |s| - i
    {
      i := i + 1;
      HoldsAt(buf[..], start, s, i);
    }
    IndexOfIsFirst(s, c);
    if i < |s| {
      IndexAt(s, c, i);
    }
  }

  method SkipSpaces(buf: array<char>, start: nat, ghost s: string) returns (right: nat)
    requires Holds(buf[..], start, s)
    ensures right == start + |s| - |TrimLeft(s)| && Holds(buf[..], right, TrimLeft(s))
    ensures right > start ==> buf[right - 1] == SPACE
  {
    var i := 0;
    TrimIsSuffix(s);
    HoldsAt(buf[..], start, s, |s| - |TrimLeft(s)|);
    HoldsAt(buf[..], start, s, 0);
    while buf[start + i] == SPACE
      invariant i <= |s| - |TrimLeft(s)| && buf[start + i] == (if i < |s| then s[i] else NUL) && (i > 0 ==> buf[start + i - 1] == SPACE)
      decreases |s| - i
    {
      i := i + 1;
      HoldsAt(buf[..], start, s, i);
    }
    HoldsSuffix(buf[..], start, s, |s| - |TrimLeft(s)|);
    return start + i;
  }

  // Only positions from lo up to hi have changed.
  ghost predicate SameOutside(b: seq<char>, b': seq<char>, lo: nat, hi: nat) {
    |b| == |b'| && forall i :: 0 <= i < |b| && !(lo <= i < hi) ==> b'[i] == b[i]
  }

  lemma CutRoom(b: seq<char>, start: nat, s: string, k: nat, b': seq<char>)
    requires HasRoom(b, start, s) && k < |s| && b' == b[start + k := NUL]
    ensures Holds(b', start, s[..k]) && HasRoom(b', start + k + 1, s[k + 1..])
  {
    HoldsCut(b, start, s, k, b');
  }

  lemma SplitHolds(b: seq<char>, start: nat, s: string, n: nat, b': seq<char>)
    requires HasRoom(b, start, s) && n == |LeftPart(s)| && b' == b[start + n := NUL]
    ensures Holds(b', start, LeftPart(s)) && Holds(b', start + n + 1, AfterPipe(s))
    ensures n < |s| ==> HasRoom(b', start + n + 1, AfterPipe(s))
  {
    if n < |s| {
      CutRoom(b, start, s, n, b');
    } else {
      assert b' == b;
    }
  }

  // The text is cut at its first pipe; next is the position after the pipe.
  method CutLine(buf: array<char>, start: nat, ghost s: string) returns (next: nat)
    requires HasRoom(buf[..], start, s)
    modifies buf
    ensures next == start + |LeftPart(s)| + 1
    ensures Holds(buf[..], start, LeftPart(s)) && Holds(buf[..], next, AfterPipe(s))
    ensures IndexOf(s, '|') >= 0 ==> HasRoom(buf[..], next, AfterPipe(s))
    ensures buf[next - 1] == NUL
    ensures SameOutside(old(buf[..]), buf[..], start, start + |s|)
  {
    var i := FindEnd(buf, start, '|', s);
    ghost var before := buf[..];
    buf[start + i] := NUL;
    assert buf[..] == before[start + i := NUL];
    SplitHolds(before, start, s, i, buf[..]);
    return start + i + 1;
  }

  /** split_line, for a pipe: the text is cut there, and the right part begins after
      the spaces. Without a pipe the right part is what follows the NUL. */
  method SplitLine(buf: array<char>, start: nat, ghost s: string) returns (right: nat)
    requires HasRoom(buf[..], start, s)
    modifies buf
    ensures Holds(buf[..], start, LeftPart(s)) && Holds(buf[..], right, RightPart(s))
    ensures IndexOf(s, '|') >= 0 ==> right + |RightPart(s)| == start + |s| && HasRoom(buf[..], right, RightPart(s))
    ensures start + |LeftPart(s)| < right <= buf.Length && buf[right - 1] in {NUL, SPACE}
    ensures SameOutside(old(buf[..]), buf[..], start, start + |s|)
  {
    var next := CutLine(buf, start, s);
    right := SkipSpaces(buf, next, AfterPipe(s));
  }

  method GetToken(buf: array<char>, idx: nat, ghost s: string) returns (tok: string)
    requires Holds(buf[..], idx, s)
    ensures tok == Token(s)
  {
    tok := "";
    var i: nat := 0;
    HoldsAt(buf[..], idx, s, 0);
    while buf[idx + i] != SPACE && buf[idx + i] != NUL
      invariant i <= |s| && buf[idx + i] == (if i < |s| then s[i] else NUL) && (buf[idx + i] == NUL <==> i == |s|)
      invariant tok == s[..i] && forall j {:trigger s[j]} :: 0 <= j < i ==> s[j] != SPACE
      decreases |s| - i
    {
      tok := tok + [buf[idx + i]];
      i := i + 1;
      HoldsAt(buf[..], idx, s, i);
    }
    TokenIs(s, i);
  }

  method ParseRedirFlow(c: Exec, arg: string) returns (c': Exec, taken: bool)
    ensures taken <==> IndexOf(arg, '>') >= 0 || IndexOf(arg, '<') >= 0
    ensures forall env :: c' == if taken then Take(env, c, arg) else c
  {
    c' := c;
    var outIdx := IndexOf(arg, '>');
    if outIdx >= 0 {
      if outIdx == 0 {
        c' := c'.(outFile := arg[1..]);
      } else if outIdx == 1 {
        c' := c'.(errFile := arg[outIdx + 1..]);
      }
      c' := c'.(redir := true);
      return c', true;
    }
    var inIdx := IndexOf(arg, '<');
    if inIdx >= 0 {
      c' := c'.(inFile := arg[1..]);
      c' := c'.(redir := true);
      return c', true;
    }
    return c', false;
  }

  method ParseEnvironVar(c: Exec, arg: string) returns (c': Exec, taken: bool)
    ensures taken <==> IndexOf(arg, '=') > 0 && IndexOf(arg, '-') < 0
    ensures c' == if taken then Exec(c.argv, c.eargv + [arg], c.outFile, c.inFile, c.errFile, c.redir) else c
  {
    c' := c;
    if IndexOf(arg, '=') > 0 {
      if IndexOf(arg, '-') < 0 {
        c' := c'.(eargv := c'.eargv + [arg]);
        return c', true;
      }
    }
    return c', false;
  }

  // Where the text goes on after its first word.
  lemma HoldsRest(b: seq<char>, idx: nat, s: string)
    requires Holds(b, idx, s) && s != ""
    ensures idx + |Token(s)| < |b|
    ensures if b[idx + |Token(s)|] == NUL then Holds(b, idx + |Token(s)|, Rest(s)) else Holds(b, idx + |Token(s)| + 1, Rest(s))
  {
    var n := |Token(s)|;
    HoldsAt(b, idx, s, n);
    if n < |s| {
      HoldsSuffix(b, idx, s, n + 1);
    } else {
      HoldsSuffix(b, idx, s, n);
    }
  }

  // The next word, and the position after it and one space.
  method NextToken(buf: array<char>, idx: nat, ghost s: string) returns (tok: string, next: nat)
    requires Holds(buf[..], idx, s) && s != ""
    ensures tok == Token(s) && Holds(buf[..], next, Rest(s))
  {
    tok := GetToken(buf, idx, s);
    next := idx + |tok|;
    HoldsRest(buf[..], idx, s);
    if buf[next] != NUL {
      next := next + 1;
    }
  }

  method ParseExec(buf: array<char>, start: nat, env: string -> string, ghost s: string) returns (c: Exec)
    requires Holds(buf[..], start, s)
    ensures c == TakeAll(env, EmptyExec(), Tokens(s))
  {
    c := EmptyExec();
    var idx: nat := start;
    ghost var rest := s;
    HoldsAt(buf[..], idx, rest, 0);
    while buf[idx] != NUL
      invariant Holds(buf[..], idx, rest) && (buf[idx] == NUL <==> rest == "")
      invariant TakeAll(env, c, Tokens(rest)) == TakeAll(env, EmptyExec(), Tokens(s))
      decreases |rest|
    {
      var tok;
      tok, idx := NextToken(buf, idx, rest);
      TakeFirst(env, c, rest);
      c := TakeWord(c, tok, env);
      rest := Rest(rest);
      HoldsAt(buf[..], idx, rest, 0);
    }
  }

  lemma TakeFirst(env: string -> string, c: Exec, s: string)
    requires s != ""
    ensures TakeAll(env, c, Tokens(s)) == TakeAll(env, Take(env, c, Token(s)), Tokens(Rest(s)))
  {
    assert Tokens(s)[1..] == Tokens(Rest(s));
  }

  // The body of parse_exec's loop, for one word.
  method TakeWord(c: Exec, word: string, env: string -> string) returns (c': Exec)
    ensures c' == Take(env, c, word)
  {
    var taken;
    c', taken := ParseRedirFlow(c, word);
    if taken {
      return;
    }
    c', taken := ParseEnvironVar(c', word);
    if taken {
      return;
    }
    var tok := Expanded(env, word);
    if tok != "" {
      c' := c'.(argv := c'.argv + [tok]);
    }
  }

  // The byte before the text, which parse_cmd looks at when the text begins with &.
  predicate NotAfterRedirection(b: seq<char>, start: nat, s: string) {
    s != "" && s[0] == '&' ==> 0 < start <= |b| && b[start - 1] != '>'
  }

  lemma HoldsInside(b: seq<char>, start: nat, s: string, b': seq<char>, lo: nat, hi: nat)
    requires SameOutside(b, b', lo, hi) && hi <= start
    ensures Holds(b, start, s) ==> Holds(b', start, s)
    ensures HasRoom(b, start, s) ==> HasRoom(b', start, s)
  {
  }

  /** parse_back: the text is cut at its first &. */
  method ParseBack(buf: array<char>, start: nat, env: string -> string, ghost s: string) returns (c: Cmd)
    requires Holds(buf[..], start, s) && IndexOf(s, '&') >= 0
    modifies buf
    ensures c == Back(ExecOf(env, s[..IndexOf(s, '&')]))
    ensures SameOutside(old(buf[..]), buf[..], start, start + |s|)
  {
    var i := FindEnd(buf, start, '&', s);
    ghost var before := buf[..];
    buf[start + i] := NUL;
    assert buf[..] == before[start + i := NUL];
    HoldsCut(before, start, s, i, buf[..]);
    var e := ParseExec(buf, start, env, s[..i]);
    return Back(e);
  }

  method ParseCmd(buf: array<char>, start: nat, env: string -> string, ghost s: string) returns (c: Cmd)
    requires Holds(buf[..], start, s) && NotAfterRedirection(buf[..], start, s)
    modifies buf
    ensures c == Parsed(env, s)
    ensures SameOutside(old(buf[..]), buf[..], start, start + |s|)
  {
    HoldsAt(buf[..], start, s, 0);
    if buf[start] == NUL {
      return NoCmd;
    }
    var idx := FindChar(buf, start, '&', s);
    IndexOfIsFirst(s, '&');
    if idx > 0 {
      HoldsAt(buf[..], start, s, idx - 1);
    }
    if idx >= 0 && buf[start + idx - 1] != '>' {
      c := ParseBack(buf, start, env, s);
      return;
    }
    var e := ParseExec(buf, start, env, s);
    return Simple(e);
  }

  // The right side of a pipe.
  method ParseRight(buf: array<char>, right: nat, env: string -> string, ghost s: string) returns (c: Cmd)
    requires Holds(buf[..], right, s) && NotAfterRedirection(buf[..], right, s) && (IndexOf(s, '|') >= 0 ==> HasRoom(buf[..], right, s))
    modifies buf
    ensures c == if IndexOf(s, '|') < 0 then Parsed(env, s) else ParsedLine(env, s)
    ensures SameOutside(old(buf[..]), buf[..], right, right + |s|)
    decreases if IndexOf(s, '|') < 0 then 0 else |s| + 1, 1
  {
    var pipe := FindChar(buf, right, '|', s);
    if pipe < 0 {
      c := ParseCmd(buf, right, env, s);
    } else {
      c := ParseLine(buf, right, env, s);
    }
  }

  /** parse_line. */
  method ParseLine(buf: array<char>, start: nat, env: string -> string, ghost s: string) returns (c: Cmd)
    requires HasRoom(buf[..], start, s) && NotAfterRedirection(buf[..], start, s)
    modifies buf
    ensures c == ParsedLine(env, s)
    ensures SameOutside(old(buf[..]), buf[..], start, start + |s|)
    decreases |s| + 1, 0
  {
    var right := SplitLine(buf, start, s);
    ghost var cut := buf[..];
    var l := ParseCmd(buf, start, env, LeftPart(s));
    HoldsInside(cut, right, RightPart(s), buf[..], start, start + |LeftPart(s)|);
    var r := ParseRight(buf, right, env, RightPart(s));
    return PipeCreate(l, r);
  }
}

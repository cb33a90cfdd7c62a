/** The grammar of the shell's commands, and the proof that the parser accepts exactly what is in it. */
module ShGrammar {

  import opened ShParse
  import opened ShPrint

  // ---- The grammar, over positions of the line that hold no space ----

  // The length of the redirection operator at i.
  function OpLength(s: string, i: nat): nat { if i + 1 < |s| && s[i] == s[i + 1] == '>' then 2 else 1 }

  // From i to j: an operator and a file name for each redirection.
  ghost predicate IsReds(s: string, i: nat, reds: seq<Red>, j: nat)
    decreases |reds|
  {
    if reds == [] then i == j else
      && i < j <= |s| && s[i] == (if reds[0].out then '>' else '<') && i + OpLength(s, i) <= |s|
      && reds[0].file.q == SkipSpace(s, i + OpLength(s, i)) && IsWord(s, reds[0].file.q, reds[0].file.eq)
      && IsReds(s, SkipSpace(s, reds[0].file.eq), reds[1..], j)
  }

  // From i to j: words, with redirections after each.
  ghost predicate IsArgs(s: string, i: nat, argv: seq<Range>, reds: seq<Red>, j: nat)
    decreases |argv|
  {
    if argv == [] then i == j && reds == [] else
      && argv[0].q == i && IsWord(s, i, argv[0].eq)
      && exists n: nat, k: nat ::
           && n <= |reds| && IsReds(s, SkipSpace(s, argv[0].eq), reds[..n], k)
           && IsArgs(s, k, argv[1..], reds[n..], j)
  }

  // From i to j: a simple command, whose redirections may be anywhere in it.
  ghost predicate IsSimple(s: string, i: nat, argv: seq<Range>, reds: seq<Red>, j: nat)
  {
    && |argv| < MAXARGS
    && exists n: nat, k: nat :: n <= |reds| && IsReds(s, i, reds[..n], k) && IsArgs(s, k, argv, reds[n..], j)
  }

  // The symbol x is at k, and what follows it at i.
  ghost predicate Mark(s: string, k: nat, x: char, i: nat) { k < |s| && s[k] == x && i == SkipSpace(s, k + 1) }

  function Height(lv: Level): nat
  {
    match lv
    case Line => 3
    case Job => 2
    case Pipeline => 1
    case Single => 0
  }

  // From i to j: the command c, at the given level of the grammar.
  ghost predicate IsPhrase(s: string, i: nat, lv: Level, c: Cmd, j: nat)
    decreases if i <= j then j - i else 0, Height(lv)
  {
    i <= j &&
    match lv
    case Line =>
      || IsPhrase(s, i, Job, c, j)
      || (c.List? && exists k: nat, m: nat ::
            && i <= k < m <= j && IsPhrase(s, i, Job, c.left, k) && Mark(s, k, ';', m)
            && IsPhrase(s, m, Line, c.right, j))
    case Job =>
      || IsPhrase(s, i, Pipeline, c, j)
      || (c.Back? && exists k: nat :: i <= k < j && IsPhrase(s, i, Job, c.cmd, k) && Mark(s, k, '&', j))
    case Pipeline =>
      || IsPhrase(s, i, Single, c, j)
      || (c.Pipe? && exists k: nat, m: nat ::
            && i <= k < m <= j && IsPhrase(s, i, Single, c.left, k) && Mark(s, k, '|', m)
            && IsPhrase(s, m, Pipeline, c.right, j))
    case Single =>
      || (exists argv, reds :: c == Wrap(Exec(argv), reds) && IsSimple(s, i, argv, reds, j))
      || (exists d, reds :: c == Wrap(d, reds) && IsBlock(s, i, d, reds, j))
  }

  // From i to j: a line in parentheses and its redirections.
  ghost predicate IsBlock(s: string, i: nat, d: Cmd, reds: seq<Red>, j: nat)
    requires i <= j
    decreases j - i, 0, 0
  {
    exists m: nat, k: nat, n: nat ::
      && i < m <= k < n <= j && Mark(s, i, '(', m) && IsPhrase(s, m, Line, d, k) && Mark(s, k, ')', n)
      && IsReds(s, n, reds, j)
  }

  // ---- What the parser accepts is in the grammar ----

  // i is no space: where the cursor stands between tokens.
  ghost predicate Cursor(s: string, i: nat) { i <= |s| && SkipSpace(s, i) == i }

  lemma Skipped(s: string, i: nat)
    requires i <= |s|
    ensures Cursor(s, SkipSpace(s, i))
  {
  }

  // One turn of parseredirs' loop that does not end in a panic.
  lemma RedsCases(s: string, i: nat)
    requires Cursor(s, i) && ParseRedirs(s, i).Reds?
    ensures var r := ParseRedirs(s, i);
      if i < |s| && (s[i] == '<' || s[i] == '>') then
        var file := GetToken(s, SkipSpace(s, i + OpLength(s, i)));
        && i + OpLength(s, i) <= file.q == SkipSpace(s, i + OpLength(s, i)) && IsWord(s, file.q, file.eq)
        && file.next == SkipSpace(s, file.eq) && ParseRedirs(s, file.next).Reds?
        && r.reds == [Red(Range(file.q, file.eq), s[i] == '>')] + ParseRedirs(s, file.next).reds
        && r.pos == ParseRedirs(s, file.next).pos
      else r == Reds([], i)
  {
    hide IsWord;
    hide GetToken;
    hide SkipSpace;
    hide OpLength;
    if i < |s| && (s[i] == '<' || s[i] == '>') {
      OpToken(s, i);
      Skipped(s, i + OpLength(s, i));
      FileToken(s, SkipSpace(s, i + OpLength(s, i)));
    }
  }

  // A file name is a whole word, where the cursor stands.
  lemma FileToken(s: string, i: nat)
    requires Cursor(s, i)
    ensures var t := GetToken(s, i); t.q == i && (t.kind == Word ==> IsWord(s, i, t.eq) && t.next == SkipSpace(s, t.eq))
  {
    hide SkipSpace;
    hide WordEnd;
  }

  lemma {:induction false} RedsSound(s: string, i: nat)
    requires Cursor(s, i) && ParseRedirs(s, i).Reds?
    ensures var r := ParseRedirs(s, i); i <= r.pos <= |s| && IsReds(s, i, r.reds, r.pos) && Cursor(s, r.pos)
    decreases |s| - i
  {
    hide ParseRedirs;
    hide GetToken;
    hide SkipSpace;
    hide IsWord;
    RedsCases(s, i);
    if i < |s| && (s[i] == '<' || s[i] == '>') {
      var file := GetToken(s, SkipSpace(s, i + OpLength(s, i)));
      Skipped(s, file.eq);
      RedsSound(s, file.next);
      assert ParseRedirs(s, i).reds[1..] == ParseRedirs(s, file.next).reds;
    }
  }

  lemma {:induction false} ArgsSound(s: string, i: nat, argv0: seq<Range>, reds0: seq<Red>)
    returns (argv: seq<Range>, reds: seq<Red>)
    requires Cursor(s, i) && |argv0| < MAXARGS && ParseArgs(s, i, argv0, reds0).Ok?
    ensures var r := ParseArgs(s, i, argv0, reds0);
      && r.cmd == Wrap(Exec(argv0 + argv), reds0 + reds) && IsArgs(s, i, argv, reds, r.pos) && Cursor(s, r.pos)
    ensures |argv0 + argv| < MAXARGS
    decreases |s| - i
  {
    hide IsReds;
    hide Wrap;
    hide ParseRedirs;
    hide GetToken;
    hide SkipSpace;
    hide IsWord;
    argv, reds := [], [];
    assert argv0 + argv == argv0 && reds0 + reds == reds0;
    ArgsCases(s, i, argv0, reds0);
    if !Follow(s, i, STOPS) {
      var t := GetToken(s, i);
      TokenIs(s, i);
      Skipped(s, t.eq);
      RedsSound(s, t.next);
      var more := ParseRedirs(s, t.next);
      var argv', reds' := ArgsSound(s, more.pos, argv0 + [Range(t.q, t.eq)], reds0 + more.reds);
      argv, reds := [Range(t.q, t.eq)] + argv', more.reds + reds';
      assert argv0 + argv == argv0 + [Range(t.q, t.eq)] + argv' && reds0 + reds == reds0 + more.reds + reds';
      assert argv[1..] == argv' && reds[..|more.reds|] == more.reds && reds[|more.reds|..] == reds';
    }
  }

  // One turn of parseexec's loop that does not end in a panic.
  lemma ArgsCases(s: string, i: nat, argv: seq<Range>, reds: seq<Red>)
    requires Cursor(s, i) && ParseArgs(s, i, argv, reds).Ok?
    ensures var r := ParseArgs(s, i, argv, reds); var t := GetToken(s, i);
      if Follow(s, i, STOPS) then r == Ok(Wrap(Exec(argv), reds), i)
      else
        && t.kind == Word && t.q == i < t.eq && IsWord(s, i, t.eq) && t.next == SkipSpace(s, t.eq)
        && |argv| + 1 < MAXARGS && ParseRedirs(s, t.next).Reds? && t.next <= ParseRedirs(s, t.next).pos
        && r == ParseArgs(s, ParseRedirs(s, t.next).pos, argv + [Range(t.q, t.eq)],
                          reds + ParseRedirs(s, t.next).reds)
  {
    hide ParseRedirs;
    hide Wrap;
  }

  lemma {:induction false} ExecSound(s: string, i: nat)
    requires Cursor(s, i) && ParseExec(s, i).Ok?
    ensures var r := ParseExec(s, i); IsPhrase(s, i, Single, r.cmd, r.pos) && Cursor(s, r.pos)
    decreases |s| - i, 0
  {
    hide ParseRedirs;
    hide ParseArgs;
    hide ParseLine;
    hide Wrap;
    hide IsReds;
    hide IsArgs;
    hide IsWord;
    hide SkipSpace;
    var r := ParseExec(s, i);
    ExecCases(s, i);
    if i < |s| && s[i] == '(' {
      var m := SkipSpace(s, i + 1);
      Skipped(s, i + 1);
      LineSound(s, m);
      var line := ParseLine(s, m);
      var n := SkipSpace(s, line.pos + 1);
      Skipped(s, line.pos + 1);
      RedsSound(s, n);
      assert Mark(s, i, '(', m) && Mark(s, line.pos, ')', n);
      assert IsBlock(s, i, line.cmd, ParseRedirs(s, n).reds, r.pos);
    } else {
      RedsSound(s, i);
      var first := ParseRedirs(s, i);
      var argv, reds := ArgsSound(s, first.pos, [], first.reds);
      assert [] + argv == argv;
      var all := first.reds + reds;
      assert all[..|first.reds|] == first.reds && all[|first.reds|..] == reds;
      assert IsSimple(s, i, argv, all, r.pos);
    }
  }

  // parseexec where it does not end in a panic.
  lemma ExecCases(s: string, i: nat)
    requires Cursor(s, i) && ParseExec(s, i).Ok?
    ensures var r := ParseExec(s, i);
      if i < |s| && s[i] == '(' then
        var line := ParseLine(s, SkipSpace(s, i + 1));
        && line.Ok? && line.pos < |s| && (Cursor(s, line.pos) ==> s[line.pos] == ')')
        && (Cursor(s, line.pos) ==>
             var reds := ParseRedirs(s, SkipSpace(s, line.pos + 1));
             reds.Reds? && r == Ok(Wrap(line.cmd, reds.reds), reds.pos))
      else ParseRedirs(s, i).Reds? && r == ParseArgs(s, ParseRedirs(s, i).pos, [], ParseRedirs(s, i).reds)
  {
    hide ParseRedirs;
    hide ParseArgs;
    hide ParseLine;
    hide Wrap;
    hide IsWord;
  }

  // A phrase of one level is a phrase of those above.
  lemma Raise(s: string, i: nat, lv: Level, c: Cmd, j: nat)
    requires IsPhrase(s, i, lv, c, j)
    ensures lv.Single? ==> IsPhrase(s, i, Pipeline, c, j)
    ensures lv.Pipeline? ==> IsPhrase(s, i, Job, c, j)
    ensures lv.Job? ==> IsPhrase(s, i, Line, c, j)
  {
  }

  lemma JoinPipe(s: string, i: nat, l: Cmd, k: nat, r: Cmd, j: nat)
    requires k < |s| && s[k] == '|'
    requires IsPhrase(s, i, Single, l, k) && IsPhrase(s, SkipSpace(s, k + 1), Pipeline, r, j)
    ensures IsPhrase(s, i, Pipeline, Pipe(l, r), j)
  {
    assert Mark(s, k, '|', SkipSpace(s, k + 1));
  }

  lemma JoinLine(s: string, i: nat, l: Cmd, k: nat, r: Cmd, j: nat)
    requires k < |s| && s[k] == ';'
    requires IsPhrase(s, i, Job, l, k) && IsPhrase(s, SkipSpace(s, k + 1), Line, r, j)
    ensures IsPhrase(s, i, Line, List(l, r), j)
  {
    assert Mark(s, k, ';', SkipSpace(s, k + 1));
  }

  lemma {:induction false} PipeSound(s: string, i: nat)
    requires Cursor(s, i) && ParsePipe(s, i).Ok?
    ensures var r := ParsePipe(s, i); IsPhrase(s, i, Pipeline, r.cmd, r.pos) && Cursor(s, r.pos)
    decreases |s| - i, 1
  {
    hide ParseExec;
    hide IsWord;
    hide IsPhrase;
    var l := ParseExec(s, i);
    ExecSound(s, i);
    Raise(s, i, Single, l.cmd, l.pos);
    if l.pos < |s| && s[l.pos] == '|' {
      var m := SkipSpace(s, l.pos + 1);
      Skipped(s, l.pos + 1);
      assert GetToken(s, l.pos).next == m;
      PipeSound(s, m);
      JoinPipe(s, i, l.cmd, l.pos, ParsePipe(s, m).cmd, ParsePipe(s, m).pos);
    }
  }

  lemma {:induction false} BacksSound(s: string, i: nat, d: Cmd, k: nat)
    requires Cursor(s, k) && IsPhrase(s, i, Job, d, k)
    ensures var r := ParseBacks(s, k, d); IsPhrase(s, i, Job, r.cmd, r.pos) && Cursor(s, r.pos)
    decreases |s| - k
  {
    if k < |s| && s[k] == '&' {
      var m := SkipSpace(s, k + 1);
      Skipped(s, k + 1);
      assert Mark(s, k, '&', m) && GetToken(s, k).next == m;
      assert IsPhrase(s, i, Job, Back(d), m);
      BacksSound(s, i, Back(d), m);
    }
  }

  lemma {:induction false} LineSound(s: string, i: nat)
    requires Cursor(s, i) && ParseLine(s, i).Ok?
    ensures var r := ParseLine(s, i); IsPhrase(s, i, Line, r.cmd, r.pos) && Cursor(s, r.pos)
    decreases |s| - i, 2
  {
    hide ParsePipe;
    hide ParseBacks;
    hide IsWord;
    hide IsPhrase;
    var p := ParsePipe(s, i);
    PipeSound(s, i);
    Raise(s, i, Pipeline, p.cmd, p.pos);
    BacksSound(s, i, p.cmd, p.pos);
    var b := ParseBacks(s, p.pos, p.cmd);
    Raise(s, i, Job, b.cmd, b.pos);
    if b.pos < |s| && s[b.pos] == ';' {
      var m := SkipSpace(s, b.pos + 1);
      Skipped(s, b.pos + 1);
      assert GetToken(s, b.pos).next == m;
      LineSound(s, m);
      JoinLine(s, i, b.cmd, b.pos, ParseLine(s, m).cmd, ParseLine(s, m).pos);
    }
  }

  // ---- What is in the grammar is accepted ----

  lemma Rejoin(reds: seq<Red>)
    requires reds != []
    ensures reds == [reds[0]] + reds[1..]
  {
  }

  // The operator of a redirection is one token.
  lemma OpToken(s: string, i: nat)
    requires i < |s| && (s[i] == '<' || s[i] == '>')
    ensures var t := GetToken(s, i);
      t.q == i && t.eq == i + OpLength(s, i) && t.next == SkipSpace(s, t.eq) && (t.kind == Symbol('<') <==> s[i] == '<')
  {
  }

  lemma {:induction false} RedsComplete(s: string, i: nat, reds: seq<Red>, j: nat)
    requires Cursor(s, i) && IsReds(s, i, reds, j) && (j < |s| ==> s[j] != '<' && s[j] != '>')
    ensures ParseRedirs(s, i) == Reds(reds, j)
    decreases |reds|
  {
    hide IsWord;
    hide SkipSpace;
    hide GetToken;
    hide ParseRedirs;
    if reds == [] {
      CursorIs(s, i);
      NoRedirs(s, i);
    } else {
      var k := i + OpLength(s, i);
      var file := reds[0].file;
      OpToken(s, i);
      WordAt(s, file.q, file.eq);
      Skipped(s, file.eq);
      RedsComplete(s, SkipSpace(s, file.eq), reds[1..], j);
      RedirStep(s, i, GetToken(s, i), GetToken(s, SkipSpace(s, k)));
      Rejoin(reds);
    }
  }

  // A whole word is one token.
  lemma WordAt(s: string, q: nat, eq: nat)
    requires IsWord(s, q, eq)
    ensures GetToken(s, q) == Token(Word, q, eq, SkipSpace(s, eq)) && Cursor(s, q) && IsPlain(s[q])
  {
    EndsAt(s, q, eq);
  }

  // What starts the arguments of a command is a word, or what may follow a command.
  lemma ArgsStart(s: string, i: nat, argv: seq<Range>, reds: seq<Red>, j: nat)
    requires IsArgs(s, i, argv, reds, j) && Follow(s, j, STOPS)
    ensures Cursor(s, i) && (i < |s| ==> s[i] != '<' && s[i] != '>' && s[i] != '(')
  {
    if argv != [] {
      WordAt(s, i, argv[0].eq);
    }
  }

  lemma {:induction false} ArgsComplete(s: string, i: nat, argv0: seq<Range>, reds0: seq<Red>, argv: seq<Range>,
                                        reds: seq<Red>, j: nat)
    requires IsArgs(s, i, argv, reds, j) && Follow(s, j, STOPS) && |argv0| + |argv| < MAXARGS
    ensures i <= |s| && ParseArgs(s, i, argv0, reds0) == Ok(Wrap(Exec(argv0 + argv), reds0 + reds), j)
    decreases |argv|
  {
    hide ParseRedirs;
    hide ParseArgs;
    hide Wrap;
    hide IsReds;
    hide IsWord;
    hide SkipSpace;
    hide GetToken;
    if argv == [] {
      ArgsStop(s, i, argv0, reds0);
      assert argv0 + argv == argv0 && reds0 + reds == reds0;
    } else {
      var w := argv[0];
      var n: nat, k: nat :|
        && n <= |reds| && IsReds(s, SkipSpace(s, w.eq), reds[..n], k) && IsArgs(s, k, argv[1..], reds[n..], j);
      WordAt(s, i, w.eq);
      ArgsStart(s, k, argv[1..], reds[n..], j);
      Skipped(s, w.eq);
      RedsComplete(s, SkipSpace(s, w.eq), reds[..n], k);
      ArgStep(s, i, GetToken(s, i), argv0, reds0, reds[..n], k);
      ArgsComplete(s, k, argv0 + [w], reds0 + reds[..n], argv[1..], reds[n..], j);
      assert argv0 + [w] + argv[1..] == argv0 + argv && reds0 + reds[..n] + reds[n..] == reds0 + reds;
    }
  }

  lemma SimpleComplete(s: string, i: nat, argv: seq<Range>, reds: seq<Red>, j: nat)
    requires Cursor(s, i) && IsSimple(s, i, argv, reds, j) && Follow(s, j, STOPS)
    ensures ParseExec(s, i) == Ok(Wrap(Exec(argv), reds), j)
  {
    hide ParseRedirs;
    hide ParseArgs;
    hide ParseExec;
    hide Wrap;
    hide IsArgs;
    hide IsWord;
    hide SkipSpace;
    var n: nat, k: nat :| n <= |reds| && IsReds(s, i, reds[..n], k) && IsArgs(s, k, argv, reds[n..], j);
    ArgsStart(s, k, argv, reds[n..], j);
    RedsComplete(s, i, reds[..n], k);
    CursorIs(s, i);
    ExecStep(s, i, reds[..n], k);
    ArgsComplete(s, k, [], reds[..n], argv, reds[n..], j);
    assert [] + argv == argv && reds[..n] + reds[n..] == reds;
  }

  lemma CursorIs(s: string, i: nat)
    requires i <= |s|
    ensures Cursor(s, i) <==> i == |s| || !IsSpace(s[i])
  {
  }

  // A phrase in the grammar, followed by what may follow it, is read to its end and no further.
  lemma {:induction false} PhraseComplete(s: string, i: nat, lv: Level, c: Cmd, j: nat)
    requires Cursor(s, i) && IsPhrase(s, i, lv, c, j) && Follow(s, j, After(lv))
    ensures Parses(s, i, lv, c, j)
    decreases j - i, Height(lv)
  {
    hide ParseLine;
    hide ParsePipe;
    hide ParseExec;
    hide ParseBacks;
    hide IsSimple;
    hide IsReds;
    hide Wrap;
    hide SkipSpace;
    match lv
    case Line =>
      if IsPhrase(s, i, Job, c, j) {
        PhraseComplete(s, i, Job, c, j);
        Lift(s, i, Job, Line, c, j);
      } else {
        var k: nat, m: nat :|
          && i <= k < m <= j && IsPhrase(s, i, Job, c.left, k) && Mark(s, k, ';', m)
          && IsPhrase(s, m, Line, c.right, j);
        PhraseComplete(s, i, Job, c.left, k);
        Skipped(s, k + 1);
        PhraseComplete(s, m, Line, c.right, j);
        BacksStop(s, k, c.left);
        ListStep(s, i, ParsePipe(s, i).cmd, ParsePipe(s, i).pos, c.left, k, c.right, j);
      }
    case Job =>
      if IsPhrase(s, i, Pipeline, c, j) {
        PhraseComplete(s, i, Pipeline, c, j);
        Lift(s, i, Pipeline, Job, c, j);
      } else {
        var k: nat :| i <= k < j && IsPhrase(s, i, Job, c.cmd, k) && Mark(s, k, '&', j);
        PhraseComplete(s, i, Job, c.cmd, k);
        BackStep(s, k, c.cmd);
      }
    case Pipeline =>
      if IsPhrase(s, i, Single, c, j) {
        PhraseComplete(s, i, Single, c, j);
        Lift(s, i, Single, Pipeline, c, j);
      } else {
        var k: nat, m: nat :|
          && i <= k < m <= j && IsPhrase(s, i, Single, c.left, k) && Mark(s, k, '|', m)
          && IsPhrase(s, m, Pipeline, c.right, j);
        PhraseComplete(s, i, Single, c.left, k);
        Skipped(s, k + 1);
        PhraseComplete(s, m, Pipeline, c.right, j);
        PipeStep(s, i, c.left, k, c.right, j);
      }
    case Single =>
      if argv, reds :| c == Wrap(Exec(argv), reds) && IsSimple(s, i, argv, reds, j) {
        SimpleComplete(s, i, argv, reds, j);
      } else {
        var d, reds :| c == Wrap(d, reds) && IsBlock(s, i, d, reds, j);
        BlockComplete(s, i, d, reds, j);
      }
  }

  lemma {:induction false} BlockComplete(s: string, i: nat, d: Cmd, reds: seq<Red>, j: nat)
    requires i <= j && Cursor(s, i) && IsBlock(s, i, d, reds, j) && Follow(s, j, STOPS)
    ensures ParseExec(s, i) == Ok(Wrap(d, reds), j)
    decreases j - i, 0, 0
  {
    hide ParseLine;
    hide ParseExec;
    hide ParseRedirs;
    hide IsReds;
    hide IsPhrase;
    hide Wrap;
    hide SkipSpace;
    var m: nat, k: nat, n: nat :|
      && i < m <= k < n <= j && Mark(s, i, '(', m) && IsPhrase(s, m, Line, d, k) && Mark(s, k, ')', n)
      && IsReds(s, n, reds, j);
    Skipped(s, i + 1);
    Skipped(s, k + 1);
    PhraseComplete(s, m, Line, d, k);
    RedsComplete(s, n, reds, j);
    BlockStep(s, i, d, k, reds, j);
  }

  // The parser accepts a line exactly if its tokens are a line of the grammar, and gives the command they spell.
  lemma ParsesGrammar(s: string, c: Cmd)
    ensures ParseCmd(s) == Ok(c, |s|) <==> IsPhrase(s, SkipSpace(s, 0), Line, c, |s|)
    ensures ParseCmd(s).Ok? ==> ParseCmd(s).pos == |s|
  {
    hide ParseLine;
    hide IsPhrase;
    var i := SkipSpace(s, 0);
    Skipped(s, 0);
    LineSkips(s, 0);
    if ParseCmd(s) == Ok(c, |s|) {
      LineSound(s, i);
    }
    if IsPhrase(s, i, Line, c, |s|) {
      PhraseComplete(s, i, Line, c, |s|);
      CursorIs(s, |s|);
    }
  }

  // Leading spaces make no difference.
  lemma LineSkips(s: string, i: nat)
    requires i <= |s|
    ensures ParseLine(s, i) == ParseLine(s, SkipSpace(s, i))
  {
    Skipped(s, i);
    assert ParseExec(s, i) == ParseExec(s, SkipSpace(s, i));
    assert ParsePipe(s, i) == ParsePipe(s, SkipSpace(s, i));
  }
}

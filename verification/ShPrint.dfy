/** A printer with as few parentheses as the grammar allows, and the proof that the parser inverts it. */
module ShPrint {

  import opened ShParse

  // A command with its words themselves.
  datatype Tree =
    | TExec(argv: seq<string>)
    | TRedir(cmd: Tree, file: string, out: bool)
    | TPipe(left: Tree, right: Tree)
    | TList(left: Tree, right: Tree)
    | TBack(cmd: Tree)

  // A non-empty word without spaces and symbols.
  predicate PlainWord(w: string) { w != [] && forall k | 0 <= k < |w| :: IsPlain(w[k]) }

  predicate Printable(c: Tree)
  {
    match c
    case TExec(argv) => |argv| < MAXARGS && forall k | 0 <= k < |argv| :: PlainWord(argv[k])
    case TRedir(d, file, _) => Printable(d) && PlainWord(file)
    case TPipe(l, r) => Printable(l) && Printable(r)
    case TList(l, r) => Printable(l) && Printable(r)
    case TBack(d) => Printable(d)
  }

  // ---- The printer ----

  // The levels of the grammar: a line, a line without semicolons, a pipeline, a command.
  datatype Level = Line | Job | Pipeline | Single

  predicate Fits(c: Tree, lv: Level)
  {
    match c
    case TList(_, _) => lv.Line?
    case TBack(_) => lv.Line? || lv.Job?
    case TPipe(_, _) => !lv.Single?
    case _ => true
  }

  function Words(argv: seq<string>): string
  {
    if argv == [] then [] else if |argv| == 1 then argv[0] else argv[0] + " " + Words(argv[1..])
  }

  function Text(c: Tree, lv: Level): string
    decreases c, if Fits(c, lv) then 0 else 1
  {
    if !Fits(c, lv) then "(" + Text(c, Line) + ")" else
      match c
      case TExec(argv) => Words(argv)
      case TRedir(d, file, out) => Text(d, Single) + (if out then ">" else "<") + file
      case TPipe(l, r) => Text(l, Single) + "|" + Text(r, Pipeline)
      case TList(l, r) => Text(l, Job) + ";" + Text(r, Line)
      case TBack(d) => Text(d, Job) + "&"
  }

  // ---- Reading a command back ----

  function WordsOf(s: string, argv: seq<Range>): (r: seq<string>)
    requires RangesOk(s, argv)
    ensures |r| == |argv| && forall k | 0 <= k < |argv| :: r[k] == s[argv[k].q..argv[k].eq]
  {
    if argv == [] then [] else WordsOf(s, argv[..|argv| - 1]) + [s[argv[|argv| - 1].q..argv[|argv| - 1].eq]]
  }

  function TreeOf(s: string, c: Cmd): Tree
    requires CmdOk(s, c)
  {
    match c
    case Exec(argv) => TExec(WordsOf(s, argv))
    case Redir(d, red) => TRedir(TreeOf(s, d), s[red.file.q..red.file.eq], red.out)
    case Pipe(l, r) => TPipe(TreeOf(s, l), TreeOf(s, r))
    case List(l, r) => TList(TreeOf(s, l), TreeOf(s, r))
    case Back(d) => TBack(TreeOf(s, d))
  }

  ghost predicate Reads(s: string, c: Cmd, t: Tree) { CmdOk(s, c) && TreeOf(s, c) == t }

  // t stands at position i of s.
  ghost predicate At(s: string, i: nat, t: string) { i + |t| <= |s| && s[i..i + |t|] == t }

  lemma AtParts(s: string, i: nat, t: string, u: string)
    requires At(s, i, t + u)
    ensures At(s, i, t) && At(s, i + |t|, u)
  {
    assert s[i..i + |t|] == (s[i..i + |t + u|])[..|t|];
    assert s[i + |t|..i + |t| + |u|] == (s[i..i + |t + u|])[|t|..];
  }

  // What may follow a phrase: the end, or one of these.
  ghost predicate Follow(s: string, i: nat, stops: set<char>) { i == |s| || (i < |s| && s[i] in stops) }

  // ---- Tokens of printed text ----

  lemma StaysPut(s: string, i: nat)
    requires i <= |s| && (i < |s| ==> !IsSpace(s[i]))
    ensures SkipSpace(s, i) == i
  {
  }

  lemma {:induction false} EndsAt(s: string, i: nat, j: nat)
    requires i <= j <= |s| && (forall k | i <= k < j :: IsPlain(s[k])) && (j < |s| ==> !IsPlain(s[j]))
    ensures WordEnd(s, i) == j
    decreases j - i
  {
    if i < j {
      EndsAt(s, i + 1, j);
    }
  }

  // A printed word is read as one token.
  lemma WordToken(s: string, i: nat, w: string)
    requires PlainWord(w) && At(s, i, w) && (i + |w| < |s| ==> !IsPlain(s[i + |w|]))
    ensures GetToken(s, i).kind == Word && GetToken(s, i).q == i && GetToken(s, i).eq == i + |w|
    ensures GetToken(s, i).next == SkipSpace(s, i + |w|)
    ensures SkipSpace(s, i) == i && s[i] == w[0] && IsPlain(s[i]) && s[i..i + |w|] == w
  {
    forall k | i <= k < i + |w| ensures s[k] == w[k - i] && IsPlain(s[k]) {
      assert s[k] == s[i..i + |w|][k - i];
    }
    EndsAt(s, i, i + |w|);
  }

  lemma SymbolToken(s: string, i: nat, c: char)
    requires i < |s| && s[i] == c && IsSymbol(c) && (c == '>' ==> i + 1 < |s| ==> s[i + 1] != '>')
    ensures GetToken(s, i) == Token(Symbol(c), i, i + 1, SkipSpace(s, i + 1)) && SkipSpace(s, i) == i
  {
  }

  // ---- Redirections ----

  datatype TRed = TRed(file: string, out: bool)

  function BaseOf(c: Tree): Tree { if c.TRedir? then BaseOf(c.cmd) else c }

  function RedsOf(c: Tree): seq<TRed> { if c.TRedir? then RedsOf(c.cmd) + [TRed(c.file, c.out)] else [] }

  function RedText(l: seq<TRed>): string
  {
    if l == [] then [] else (if l[0].out then ">" else "<") + l[0].file + RedText(l[1..])
  }

  predicate PlainReds(l: seq<TRed>) { forall k | 0 <= k < |l| :: PlainWord(l[k].file) }

  lemma {:induction false} RedTextAppend(l: seq<TRed>, r: TRed)
    ensures RedText(l + [r]) == RedText(l) + (if r.out then ">" else "<") + r.file
  {
    if l == [] {
      assert [r][1..] == [] && RedText([]) == [];
    } else {
      RedTextAppend(l[1..], r);
      assert (l + [r])[1..] == l[1..] + [r] && (l + [r])[0] == l[0];
      var head, op := (if l[0].out then ">" else "<") + l[0].file, if r.out then ">" else "<";
      Regroup(head, RedText(l[1..]), op, r.file);
    }
  }

  lemma Regroup(a: string, b: string, c: string, d: string)
    ensures a + (b + c + d) == (a + b) + c + d
  {
  }

  lemma {:induction false} TextParts(c: Tree)
    requires Printable(c)
    ensures Text(c, Single) == Text(BaseOf(c), Single) + RedText(RedsOf(c))
    ensures Printable(BaseOf(c)) && !BaseOf(c).TRedir? && PlainReds(RedsOf(c))
    ensures c.TRedir? ==> BaseOf(c) < c
    ensures !c.TRedir? ==> BaseOf(c) == c
  {
    if c.TRedir? {
      TextParts(c.cmd);
      RedTextAppend(RedsOf(c.cmd), TRed(c.file, c.out));
    }
  }

  ghost predicate RedsRead(s: string, reds: seq<Red>, l: seq<TRed>)
  {
    && RedsOk(s, reds) && |reds| == |l|
    && forall k | 0 <= k < |l| :: s[reds[k].file.q..reds[k].file.eq] == l[k].file && reds[k].out == l[k].out
  }

  lemma {:induction false} WrapReads(s: string, d: Cmd, t: Tree, reds: seq<Red>, c: Tree)
    requires Reads(s, d, t) && RedsRead(s, reds, RedsOf(c)) && BaseOf(c) == t
    ensures Reads(s, Wrap(d, reds), c)
  {
    if c.TRedir? {
      var n := |reds| - 1;
      assert RedsRead(s, reds[..n], RedsOf(c.cmd)) by {
        assert RedsOf(c)[..n] == RedsOf(c.cmd);
      }
      WrapReads(s, d, t, reds[..n], c.cmd);
      WrapLast(d, reds[..n], reds[n]);
      assert reds == reds[..n] + [reds[n]];
    } else {
      assert reds == [];
    }
  }

  lemma {:induction false} WrapLast(d: Cmd, reds: seq<Red>, r: Red)
    ensures Wrap(d, reds + [r]) == Redir(Wrap(d, reds), r)
    decreases |reds|
  {
    if reds == [] {
      assert ([] + [r])[1..] == [];
    } else {
      WrapLast(Redir(d, reds[0]), reds[1..], r);
      assert (reds + [r])[1..] == reds[1..] + [r];
    }
  }

  // After a redirection comes another, or what may follow a command.
  lemma RedStart(s: string, i: nat, l: seq<TRed>)
    requires At(s, i, RedText(l)) && Follow(s, i + |RedText(l)|, STOPS)
    ensures SkipSpace(s, i) == i
    ensures l == [] ==> Follow(s, i, STOPS)
    ensures l != [] ==> i < |s| && s[i] == if l[0].out then '>' else '<'
    ensures i < |s| ==> IsSymbol(s[i]) && !IsPlain(s[i]) && s[i] != '('
  {
    if l != [] {
      assert s[i] == s[i..i + |RedText(l)|][0];
    }
  }

  lemma RedirStep(s: string, i: nat, tok: Token, file: Token)
    requires i < |s| && (s[i] == '<' || s[i] == '>') && GetToken(s, i) == tok && GetToken(s, tok.next) == file
    requires file.kind == Word
    requires ParseRedirs(s, file.next).Reds?
    ensures ParseRedirs(s, i) ==
      Reds([Red(Range(file.q, file.eq), tok.kind != Symbol('<'))] + ParseRedirs(s, file.next).reds,
           ParseRedirs(s, file.next).pos)
  {
    StaysPut(s, i);
  }

  lemma RedsReadMore(s: string, red: Red, reds: seq<Red>, l: seq<TRed>)
    requires l != [] && RedsRead(s, reds, l[1..]) && IsWord(s, red.file.q, red.file.eq)
    requires s[red.file.q..red.file.eq] == l[0].file && red.out == l[0].out
    ensures RedsRead(s, [red] + reds, l)
  {
  }

  // The text of a first redirection, and what is after it.
  lemma RedCut(s: string, i: nat, l: seq<TRed>)
    requires l != [] && At(s, i, RedText(l))
    ensures At(s, i, if l[0].out then ">" else "<") && At(s, i + 1, l[0].file)
    ensures At(s, i + 1 + |l[0].file|, RedText(l[1..]))
    ensures |RedText(l)| == 1 + |l[0].file| + |RedText(l[1..])|
  {
    hide At;
    var op := if l[0].out then ">" else "<";
    AtParts(s, i, op + l[0].file, RedText(l[1..]));
    AtParts(s, i, op, l[0].file);
  }

  lemma {:induction false} RedirsRead(s: string, i: nat, l: seq<TRed>)
    requires PlainReds(l) && At(s, i, RedText(l)) && Follow(s, i + |RedText(l)|, STOPS)
    ensures ParseRedirs(s, i).Reds? && ParseRedirs(s, i).pos == i + |RedText(l)|
    ensures RedsRead(s, ParseRedirs(s, i).reds, l)
    decreases |l|
  {
    hide SkipSpace;
    hide WordEnd;
    hide GetToken;
    hide RedsRead;
    hide ParseRedirs;
    hide RedText;
    hide At;
    hide IsWord;
    RedStart(s, i, l);
    if l == [] {
      NoRedirs(s, i);
      EmptyText();
    } else {
      var w := l[0].file;
      assert PlainWord(w);
      RedCut(s, i, l);
      var k := i + 1 + |w|;
      RedStart(s, k, l[1..]);
      WordToken(s, i + 1, w);
      FirstOf(s, i + 1, w);
      SymbolToken(s, i, if l[0].out then '>' else '<');
      RedirsRead(s, k, l[1..]);
      RedirStep(s, i, GetToken(s, i), GetToken(s, i + 1));
      RedsReadMore(s, Red(Range(i + 1, k), l[0].out), ParseRedirs(s, k).reds, l);
    }
  }

  lemma EmptyText()
    ensures RedText([]) == []
  {
  }

  lemma FirstOf(s: string, i: nat, t: string)
    requires At(s, i, t) && t != []
    ensures i < |s| && s[i] == t[0]
  {
    assert s[i] == s[i..i + |t|][0];
  }

  lemma NoRedirs(s: string, i: nat)
    requires i <= |s| && (i < |s| ==> !IsSpace(s[i]) && s[i] != '<' && s[i] != '>')
    ensures ParseRedirs(s, i) == Reds([], i) && RedsRead(s, [], [])
  {
    StaysPut(s, i);
  }

  // ---- Words ----

  lemma WordsFirst(argv: seq<string>)
    requires argv != [] && forall k | 0 <= k < |argv| :: PlainWord(argv[k])
    ensures Words(argv) != [] && IsPlain(Words(argv)[0])
  {
    assert PlainWord(argv[0]);
  }

  ghost predicate ArgvRead(s: string, argv: seq<Range>, words: seq<string>)
  {
    RangesOk(s, argv) && WordsOf(s, argv) == words
  }

  lemma ArgvMore(s: string, argv: seq<Range>, words: seq<string>, r: Range, w: string)
    requires ArgvRead(s, argv, words) && IsWord(s, r.q, r.eq) && s[r.q..r.eq] == w
    ensures ArgvRead(s, argv + [r], words + [w])
  {
    assert WordsOf(s, argv + [r]) == words + [w];
  }

  // A command's words and redirections are read to its end.
  lemma ArgsStop(s: string, i: nat, argv: seq<Range>, reds: seq<Red>)
    requires i <= |s| && Follow(s, i, STOPS)
    ensures ParseArgs(s, i, argv, reds) == Ok(Wrap(Exec(argv), reds), i)
  {
    StaysPut(s, i);
  }

  lemma ArgStep(s: string, i: nat, t: Token, argv: seq<Range>, reds: seq<Red>, more: seq<Red>, pos: nat)
    requires i < |s| && IsPlain(s[i]) && GetToken(s, i) == t && t.kind == Word && |argv| + 1 < MAXARGS
    requires ParseRedirs(s, t.next) == Reds(more, pos)
    ensures ParseArgs(s, i, argv, reds) == ParseArgs(s, pos, argv + [Range(t.q, t.eq)], reds + more)
  {
    StaysPut(s, i);
  }

  // The last word and what redirections it has.
  lemma LastArg(s: string, i: nat, argv: seq<Range>, words: seq<string>, w: string, l: seq<TRed>)
    returns (argv': seq<Range>, reds: seq<Red>)
    requires |argv| + 1 < MAXARGS && ArgvRead(s, argv, words) && PlainReds(l) && PlainWord(w)
    requires At(s, i, w + RedText(l)) && Follow(s, i + |w + RedText(l)|, STOPS)
    ensures ParseArgs(s, i, argv, []) == Ok(Wrap(Exec(argv'), reds), i + |w + RedText(l)|)
    ensures ArgvRead(s, argv', words + [w]) && RedsRead(s, reds, l) && |argv'| == |argv| + 1
  {
    hide SkipSpace;
    hide WordEnd;
    hide GetToken;
    hide RedsRead;
    hide ArgvRead;
    hide ParseRedirs;
    hide ParseArgs;
    hide Wrap;
    hide RedText;
    hide At;
    hide Words;
    hide IsWord;
    hide IsPlain;
    var k := i + |w|;
    AtParts(s, i, w, RedText(l));
    RedStart(s, k, l);
    WordToken(s, i, w);
    RedirsRead(s, k, l);
    argv', reds := argv + [Range(i, k)], ParseRedirs(s, k).reds;
    ArgvMore(s, argv, words, Range(i, k), w);
    ArgStep(s, i, GetToken(s, i), argv, [], reds, k + |RedText(l)|);
    assert [] + reds == reds;
    ArgsStop(s, k + |RedText(l)|, argv', reds);
  }

  // A word and the space after it.
  lemma OneArg(s: string, i: nat, argv: seq<Range>, words: seq<string>, more: seq<string>, l: seq<TRed>)
    requires |more| > 1 && |argv| + 1 < MAXARGS && ArgvRead(s, argv, words)
    requires forall k | 0 <= k < |more| :: PlainWord(more[k])
    requires At(s, i, Words(more) + RedText(l))
    ensures var k := i + |more[0]|;
      && ParseArgs(s, i, argv, []) == ParseArgs(s, k + 1, argv + [Range(i, k)], [])
      && ArgvRead(s, argv + [Range(i, k)], words + [more[0]])
      && At(s, k + 1, Words(more[1..]) + RedText(l))
    ensures |Words(more)| == |more[0]| + 1 + |Words(more[1..])|
  {
    hide SkipSpace;
    hide WordEnd;
    hide GetToken;
    hide RedsRead;
    hide ArgvRead;
    hide ParseRedirs;
    hide ParseArgs;
    hide Wrap;
    hide RedText;
    hide At;
    hide Words;
    hide IsWord;
    hide IsPlain;
    var w := more[0];
    var k := i + |w|;
    assert PlainWord(w);
    WordsCut(more);
    var rest := Words(more[1..]) + RedText(l);
    assert Words(more) + RedText(l) == (w + " ") + rest;
    AtParts(s, i, w + " ", rest);
    AtParts(s, i, w, " ");
    AtParts(s, k + 1, Words(more[1..]), RedText(l));
    FirstOf(s, k, " ");
    SpaceEnds();
    WordToken(s, i, w);
    NextWord(s, k, more[1..]);
    ArgvMore(s, argv, words, Range(i, k), w);
    var none: seq<Red> := [];
    ArgStep(s, i, GetToken(s, i), argv, none, none, k + 1);
    assert none + none == none;
  }

  lemma {:induction false} ArgsRead(s: string, i: nat, argv: seq<Range>, words: seq<string>, more: seq<string>,
                                    l: seq<TRed>)
    returns (argv': seq<Range>, reds: seq<Red>)
    requires more != [] && |argv| + |more| < MAXARGS && ArgvRead(s, argv, words) && PlainReds(l)
    requires forall k | 0 <= k < |more| :: PlainWord(more[k])
    requires At(s, i, Words(more) + RedText(l)) && Follow(s, i + |Words(more) + RedText(l)|, STOPS)
    ensures ParseArgs(s, i, argv, []) == Ok(Wrap(Exec(argv'), reds), i + |Words(more) + RedText(l)|)
    ensures ArgvRead(s, argv', words + more) && RedsRead(s, reds, l) && |argv'| == |argv| + |more|
    decreases |more|
  {
    hide SkipSpace;
    hide WordEnd;
    hide GetToken;
    hide RedsRead;
    hide ArgvRead;
    hide ParseRedirs;
    hide ParseArgs;
    hide Wrap;
    hide RedText;
    hide At;
    hide Words;
    hide IsWord;
    hide IsPlain;
    var w := more[0];
    if |more| == 1 {
      WordsCut(more);
      argv', reds := LastArg(s, i, argv, words, w, l);
      assert words + more == words + [w];
    } else {
      OneArg(s, i, argv, words, more, l);
      argv', reds := ArgsRead(s, i + |w| + 1, argv + [Range(i, i + |w|)], words + [w], more[1..], l);
      assert words + [w] + more[1..] == words + more;
    }
  }

  lemma SpaceEnds()
    ensures !IsPlain(' ')
  {
  }

  lemma WordsCut(argv: seq<string>)
    requires argv != []
    ensures |argv| == 1 ==> Words(argv) == argv[0]
    ensures |argv| > 1 ==> Words(argv) == argv[0] + " " + Words(argv[1..])
  {
  }

  // One space leads on to the next word, which is no redirection.
  lemma NextWord(s: string, k: nat, more: seq<string>)
    requires k < |s| && s[k] == ' ' && more != [] && At(s, k + 1, Words(more))
    requires forall j | 0 <= j < |more| :: PlainWord(more[j])
    ensures SkipSpace(s, k) == k + 1 && ParseRedirs(s, k + 1) == Reds([], k + 1)
  {
    hide ParseRedirs;
    hide Words;
    WordsFirst(more);
    assert s[k + 1] == s[k + 1..k + 1 + |Words(more)|][0];
    StaysPut(s, k + 1);
    NoRedirs(s, k + 1);
  }

  // parseexec without a block: the redirections, then the arguments.
  lemma ExecStep(s: string, i: nat, reds: seq<Red>, pos: nat)
    requires i <= |s| && (i < |s| ==> !IsSpace(s[i]) && s[i] != '(') && ParseRedirs(s, i) == Reds(reds, pos)
    ensures ParseExec(s, i) == ParseArgs(s, pos, [], reds)
  {
    hide ParseRedirs;
    hide ParseArgs;
    StaysPut(s, i);
  }

  lemma ExecReads(s: string, argv: seq<Range>, words: seq<string>)
    requires ArgvRead(s, argv, words) && |argv| < MAXARGS
    ensures Reads(s, Exec(argv), TExec(words))
  {
  }

  lemma ExecRead(s: string, i: nat, c: Tree) returns (d: Cmd)
    requires Printable(c) && BaseOf(c).TExec? && At(s, i, Text(c, Single)) && Follow(s, i + |Text(c, Single)|, STOPS)
    ensures ParseExec(s, i) == Ok(d, i + |Text(c, Single)|) && Reads(s, d, c)
  {
    hide SkipSpace;
    hide RedsRead;
    hide ArgvRead;
    hide ParseRedirs;
    hide ParseArgs;
    hide ParseExec;
    hide Wrap;
    hide RedText;
    hide Reads;
    hide BaseOf;
    hide RedsOf;
    TextParts(c);
    var argv, l := BaseOf(c).argv, RedsOf(c);
    var end := i + |Text(c, Single)|;
    assert Text(BaseOf(c), Single) == Words(argv);
    AtParts(s, i, Words(argv), RedText(l));
    if argv == [] {
      RedStart(s, i, l);
      RedirsRead(s, i, l);
      var reds := ParseRedirs(s, i).reds;
      ArgsStop(s, end, [], reds);
      ExecStep(s, i, reds, end);
      d := Wrap(Exec([]), reds);
      EmptyArgv(s);
      ExecReads(s, [], []);
      WrapReads(s, Exec([]), BaseOf(c), reds, c);
    } else {
      WordsFirst(argv);
      assert s[i] == s[i..i + |Words(argv)|][0];
      EmptyArgv(s);
      NoRedirs(s, i);
      ExecStep(s, i, [], i);
      var argv', reds := ArgsRead(s, i, [], [], argv, l);
      d := Wrap(Exec(argv'), reds);
      assert [] + argv == argv;
      ExecReads(s, argv', argv);
      WrapReads(s, Exec(argv'), BaseOf(c), reds, c);
    }
  }

  lemma EmptyArgv(s: string)
    ensures ArgvRead(s, [], [])
  {
  }

  // ---- Phrases ----

  // What may follow a phrase of each level.
  function After(lv: Level): set<char>
  {
    match lv
    case Line => {')'}
    case Job => {'&', ';', ')'}
    case Pipeline => {'&', ';', ')'}
    case Single => STOPS
  }

  // The parser, at position i, reads c at level lv as d and comes to end.
  ghost predicate Parses(s: string, i: nat, lv: Level, d: Cmd, end: nat)
    requires i <= |s|
  {
    end <= |s| &&
    match lv
    case Line => ParseLine(s, i) == Ok(d, end)
    case Job =>
      ParsePipe(s, i).Ok? && ParseBacks(s, ParsePipe(s, i).pos, ParsePipe(s, i).cmd) == ParseBacks(s, end, d)
    case Pipeline => ParsePipe(s, i) == Ok(d, end)
    case Single => ParseExec(s, i) == Ok(d, end)
  }

  lemma BacksStop(s: string, i: nat, c: Cmd)
    requires i <= |s| && Follow(s, i, {';', ')'})
    ensures ParseBacks(s, i, c) == Ok(c, i)
  {
    StaysPut(s, i);
  }

  lemma LineStops(s: string, i: nat, p: Cmd, j: nat, d: Cmd, end: nat)
    requires i <= |s| && ParsePipe(s, i) == Ok(p, j) && ParseBacks(s, j, p) == Ok(d, end) && Follow(s, end, {')'})
    ensures ParseLine(s, i) == Ok(d, end)
  {
    hide ParsePipe;
    hide ParseBacks;
    StaysPut(s, end);
  }

  lemma PipeStops(s: string, i: nat, d: Cmd, end: nat)
    requires i <= |s| && ParseExec(s, i) == Ok(d, end) && Follow(s, end, {'&', ';', ')'})
    ensures ParsePipe(s, i) == Ok(d, end)
  {
    hide ParseExec;
    StaysPut(s, end);
  }

  // A phrase read at one level is read at any level above it.
  lemma Lift(s: string, i: nat, from: Level, to: Level, d: Cmd, end: nat)
    requires i <= |s| && Parses(s, i, from, d, end) && Follow(s, end, After(to))
    requires from.Single? || (from.Pipeline? && !to.Single?) || (from.Job? && (to.Job? || to.Line?)) ||
               (from.Line? && to.Line?)
    ensures Parses(s, i, to, d, end)
  {
    hide ParseLine;
    hide ParsePipe;
    hide ParseExec;
    hide ParseBacks;
    if from.Single? && !to.Single? {
      PipeStops(s, i, d, end);
    }
    if !from.Line? && to.Line? {
      var p := ParsePipe(s, i);
      BacksStop(s, end, d);
      LineStops(s, i, p.cmd, p.pos, d, end);
    }
  }

  lemma {:induction false} StartOk(c: Tree, lv: Level)
    requires Printable(c)
    ensures Text(c, lv) != [] ==> !IsSpace(Text(c, lv)[0])
    decreases c, if Fits(c, lv) then 0 else 1
  {
    if Fits(c, lv) {
      match c
      case TExec(argv) => if argv != [] { WordsFirst(argv); }
      case TRedir(d, _, _) => StartOk(d, Single);
      case TPipe(l, _) => StartOk(l, Single);
      case TList(l, _) => StartOk(l, Job);
      case TBack(d) => StartOk(d, Job);
    }
  }

  // No phrase starts with a space, so the cursor stands at its start.
  lemma PhraseStart(s: string, i: nat, c: Tree, lv: Level, after: set<char>)
    requires Printable(c) && At(s, i, Text(c, lv)) && Follow(s, i + |Text(c, lv)|, after) && after <= STOPS
    ensures SkipSpace(s, i) == i
  {
    hide Text;
    StartOk(c, lv);
    if Text(c, lv) != [] {
      FirstOf(s, i, Text(c, lv));
    }
    StaysPut(s, i);
  }

  // ---- Blocks ----

  lemma BlockStep(s: string, i: nat, d: Cmd, k: nat, reds: seq<Red>, pos: nat)
    requires i < |s| && s[i] == '(' && ParseLine(s, SkipSpace(s, i + 1)) == Ok(d, k)
    requires k < |s| && s[k] == ')' && ParseRedirs(s, SkipSpace(s, k + 1)) == Reds(reds, pos)
    ensures ParseExec(s, i) == Ok(Wrap(d, reds), pos)
  {
    hide ParseLine;
    hide ParseRedirs;
    hide ParsePipe;
    SymbolToken(s, i, '(');
    SymbolToken(s, k, ')');
    assert Peek(s, i, {'('}) && Peek(s, k, {')'});
    assert ParseBlock(s, i) == Ok(Wrap(d, reds), pos);
  }

  // A parenthesised phrase with its redirections, once its inside is read.
  lemma BlockRead(s: string, i: nat, c: Tree, d: Cmd, k: nat) returns (e: Cmd)
    requires Printable(c) && !BaseOf(c).TExec? && At(s, i, Text(c, Single)) && Follow(s, i + |Text(c, Single)|, STOPS)
    requires k == i + 1 + |Text(BaseOf(c), Line)| < |s| && ParseLine(s, i + 1) == Ok(d, k) && Reads(s, d, BaseOf(c))
    ensures ParseExec(s, i) == Ok(e, i + |Text(c, Single)|) && Reads(s, e, c)
  {
    hide SkipSpace;
    hide RedsRead;
    hide ParseRedirs;
    hide ParseExec;
    hide ParseLine;
    hide Wrap;
    hide RedText;
    hide Reads;
    hide At;
    BlockCut(s, i, c);
    var l := RedsOf(c);
    TextParts(c);
    FirstOf(s, i, "(");
    FirstOf(s, k, ")");
    PhraseStart(s, i + 1, BaseOf(c), Line, {')'});
    RedStart(s, k + 1, l);
    RedirsRead(s, k + 1, l);
    var reds := ParseRedirs(s, k + 1);
    BlockStep(s, i, d, k, reds.reds, reds.pos);
    e := Wrap(d, reds.reds);
    WrapReads(s, d, BaseOf(c), reds.reds, c);
  }

  lemma BlockCut(s: string, i: nat, c: Tree)
    requires Printable(c) && !BaseOf(c).TExec? && At(s, i, Text(c, Single))
    ensures var t := Text(BaseOf(c), Line);
      && At(s, i, "(") && At(s, i + 1, t) && At(s, i + 1 + |t|, ")") && At(s, i + 2 + |t|, RedText(RedsOf(c)))
      && |Text(c, Single)| == 2 + |t| + |RedText(RedsOf(c))|
  {
    hide At;
    TextParts(c);
    var t := Text(BaseOf(c), Line);
    assert Text(BaseOf(c), Single) == "(" + t + ")";
    AtParts(s, i, "(" + t + ")", RedText(RedsOf(c)));
    AtParts(s, i, "(" + t, ")");
    AtParts(s, i, "(", t);
  }

  // ---- Operators ----

  lemma PipeStep(s: string, i: nat, l: Cmd, k: nat, r: Cmd, end: nat)
    requires i <= |s| && ParseExec(s, i) == Ok(l, k) && k < |s| && s[k] == '|'
    requires ParsePipe(s, SkipSpace(s, k + 1)) == Ok(r, end)
    ensures ParsePipe(s, i) == Ok(Pipe(l, r), end)
  {
    hide ParseExec;
    SymbolToken(s, k, '|');
    assert Peek(s, k, {'|'});
  }

  lemma BackStep(s: string, k: nat, d: Cmd)
    requires k < |s| && s[k] == '&'
    ensures ParseBacks(s, k, d) == ParseBacks(s, SkipSpace(s, k + 1), Back(d))
  {
    SymbolToken(s, k, '&');
    assert Peek(s, k, {'&'});
  }

  lemma ListStep(s: string, i: nat, p: Cmd, j: nat, l: Cmd, k: nat, r: Cmd, end: nat)
    requires i <= |s| && ParsePipe(s, i) == Ok(p, j) && ParseBacks(s, j, p) == Ok(l, k) && k < |s| && s[k] == ';'
    requires ParseLine(s, SkipSpace(s, k + 1)) == Ok(r, end)
    ensures ParseLine(s, i) == Ok(List(l, r), end)
  {
    hide ParsePipe;
    hide ParseBacks;
    SymbolToken(s, k, ';');
    assert Peek(s, k, {';'});
  }

  // ---- The round trip ----

  function Rank(c: Tree, lv: Level): nat
  {
    if !Fits(c, lv) then 2 else if Natural(c) == lv then 0 else 1
  }

  // The lowest level a tree fits.
  function Natural(c: Tree): Level
  {
    match c
    case TList(_, _) => Line
    case TBack(_) => Job
    case TPipe(_, _) => Pipeline
    case _ => Single
  }

  lemma {:induction false} RoundTrip(s: string, i: nat, c: Tree, lv: Level) returns (d: Cmd)
    requires Printable(c) && At(s, i, Text(c, lv)) && Follow(s, i + |Text(c, lv)|, After(lv))
    ensures Reads(s, d, c) && Parses(s, i, lv, d, i + |Text(c, lv)|)
    decreases c, Rank(c, lv), 1
  {
    hide At;
    hide Text;
    hide Reads;
    hide Parses;
    hide Printable;
    var end := i + |Text(c, lv)|;
    if !Fits(c, lv) {
      UnfitIsSingle(c, lv);
      BlockCut(s, i, c);
      FirstOf(s, i + 1 + |Text(c, Line)|, ")");
      d := RoundTrip(s, i + 1, c, Line);
      d := BlockPhrase(s, i, c, d);
      Lift(s, i, Single, lv, d, end);
    } else if Natural(c) != lv {
      SameText(c, lv);
      d := RoundTrip(s, i, c, Natural(c));
      Lift(s, i, Natural(c), lv, d, end);
    } else if Natural(c).Single? {
      TextParts(c);
      if BaseOf(c).TExec? {
        d := SingleTrip(s, i, c);
      } else {
        BlockCut(s, i, c);
        FirstOf(s, i + 1 + |Text(BaseOf(c), Line)|, ")");
        d := RoundTrip(s, i + 1, BaseOf(c), Line);
        d := BlockPhrase(s, i, c, d);
      }
    } else {
      d := OperatorTrip(s, i, c);
    }
  }

  lemma {:induction false} OperatorTrip(s: string, i: nat, c: Tree) returns (d: Cmd)
    requires Printable(c) && At(s, i, Text(c, Natural(c))) && Follow(s, i + |Text(c, Natural(c))|, After(Natural(c)))
    requires c.TPipe? || c.TList? || c.TBack?
    ensures Reads(s, d, c) && Parses(s, i, Natural(c), d, i + |Text(c, Natural(c))|)
    decreases c, 0, 0
  {
    hide At;
    hide Text;
    hide Reads;
    hide Parses;
    hide SkipSpace;
    var end := i + |Text(c, Natural(c))|;
    match c
    case TPipe(l, r) =>
      PipeCut(s, i, c);
      var k := i + |Text(l, Single)|;
      FirstOf(s, k, "|");
      var d1 := RoundTrip(s, i, l, Single);
      var d2 := RoundTrip(s, k + 1, r, Pipeline);
      PhraseStart(s, k + 1, r, Pipeline, After(Pipeline));
      d := PipePhrase(s, i, c, d1, d2, k, end);
    case TList(l, r) =>
      ListCut(s, i, c);
      var k := i + |Text(l, Job)|;
      FirstOf(s, k, ";");
      var d1 := RoundTrip(s, i, l, Job);
      var d2 := RoundTrip(s, k + 1, r, Line);
      PhraseStart(s, k + 1, r, Line, After(Line));
      d := ListPhrase(s, i, c, d1, d2, k, end);
    case TBack(b) =>
      BackCut(s, i, c);
      var k := i + |Text(b, Job)|;
      FirstOf(s, k, "&");
      var d1 := RoundTrip(s, i, b, Job);
      StaysPut(s, end);
      d := BackPhrase(s, i, c, d1, k);
  }

  lemma UnfitIsSingle(c: Tree, lv: Level)
    requires !Fits(c, lv)
    ensures Text(c, lv) == Text(c, Single) && BaseOf(c) == c && !c.TExec? && Fits(c, Line)
  {
  }

  lemma SameText(c: Tree, lv: Level)
    requires Fits(c, lv)
    ensures Text(c, lv) == Text(c, Natural(c)) && Fits(c, Natural(c))
  {
  }

  lemma SingleTrip(s: string, i: nat, c: Tree) returns (d: Cmd)
    requires Printable(c) && BaseOf(c).TExec? && At(s, i, Text(c, Single)) && Follow(s, i + |Text(c, Single)|, STOPS)
    ensures Reads(s, d, c) && Parses(s, i, Single, d, i + |Text(c, Single)|)
  {
    d := ExecRead(s, i, c);
  }

  lemma BlockPhrase(s: string, i: nat, c: Tree, d: Cmd) returns (e: Cmd)
    requires Printable(c) && !BaseOf(c).TExec? && At(s, i, Text(c, Single)) && Follow(s, i + |Text(c, Single)|, STOPS)
    requires i + 1 + |Text(BaseOf(c), Line)| < |s|
    requires Parses(s, i + 1, Line, d, i + 1 + |Text(BaseOf(c), Line)|) && Reads(s, d, BaseOf(c))
    ensures Reads(s, e, c) && Parses(s, i, Single, e, i + |Text(c, Single)|)
  {
    hide Text;
    hide At;
    hide Reads;
    hide ParseLine;
    hide ParseExec;
    hide Printable;
    hide BaseOf;
    e := BlockRead(s, i, c, d, i + 1 + |Text(BaseOf(c), Line)|);
  }

  lemma PipeCut(s: string, i: nat, c: Tree)
    requires c.TPipe? && At(s, i, Text(c, Pipeline))
    ensures At(s, i, Text(c.left, Single)) && At(s, i + |Text(c.left, Single)|, "|")
    ensures At(s, i + |Text(c.left, Single)| + 1, Text(c.right, Pipeline))
    ensures |Text(c, Pipeline)| == |Text(c.left, Single)| + 1 + |Text(c.right, Pipeline)|
  {
    hide At;
    AtParts(s, i, Text(c.left, Single) + "|", Text(c.right, Pipeline));
    AtParts(s, i, Text(c.left, Single), "|");
  }

  lemma ListCut(s: string, i: nat, c: Tree)
    requires c.TList? && At(s, i, Text(c, Line))
    ensures At(s, i, Text(c.left, Job)) && At(s, i + |Text(c.left, Job)|, ";")
    ensures At(s, i + |Text(c.left, Job)| + 1, Text(c.right, Line))
    ensures |Text(c, Line)| == |Text(c.left, Job)| + 1 + |Text(c.right, Line)|
  {
    hide At;
    AtParts(s, i, Text(c.left, Job) + ";", Text(c.right, Line));
    AtParts(s, i, Text(c.left, Job), ";");
  }

  lemma BackCut(s: string, i: nat, c: Tree)
    requires c.TBack? && At(s, i, Text(c, Job))
    ensures At(s, i, Text(c.cmd, Job)) && At(s, i + |Text(c.cmd, Job)|, "&")
    ensures |Text(c, Job)| == |Text(c.cmd, Job)| + 1
  {
    hide At;
    AtParts(s, i, Text(c.cmd, Job), "&");
  }

  lemma PipePhrase(s: string, i: nat, c: Tree, l: Cmd, r: Cmd, k: nat, end: nat) returns (d: Cmd)
    requires c.TPipe? && i <= |s| && k < |s| && s[k] == '|' && SkipSpace(s, k + 1) == k + 1
    requires Parses(s, i, Single, l, k) && Parses(s, k + 1, Pipeline, r, end) && Reads(s, l, c.left)
    requires Reads(s, r, c.right)
    ensures Parses(s, i, Pipeline, d, end) && Reads(s, d, c)
  {
    hide ParsePipe;
    hide ParseExec;
    hide SkipSpace;
    d := Pipe(l, r);
    PipeStep(s, i, l, k, r, end);
  }

  lemma ListPhrase(s: string, i: nat, c: Tree, l: Cmd, r: Cmd, k: nat, end: nat) returns (d: Cmd)
    requires c.TList? && i <= |s| && k < |s| && s[k] == ';' && SkipSpace(s, k + 1) == k + 1
    requires Parses(s, i, Job, l, k) && Parses(s, k + 1, Line, r, end) && Reads(s, l, c.left) && Reads(s, r, c.right)
    ensures Parses(s, i, Line, d, end) && Reads(s, d, c)
  {
    hide ParseBacks;
    hide ParsePipe;
    hide ParseLine;
    hide SkipSpace;
    d := List(l, r);
    BacksStop(s, k, l);
    ListStep(s, i, ParsePipe(s, i).cmd, ParsePipe(s, i).pos, l, k, r, end);
  }

  lemma BackPhrase(s: string, i: nat, c: Tree, b: Cmd, k: nat) returns (d: Cmd)
    requires c.TBack? && i <= |s| && k < |s| && s[k] == '&' && SkipSpace(s, k + 1) == k + 1
    requires Parses(s, i, Job, b, k) && Reads(s, b, c.cmd)
    ensures Parses(s, i, Job, d, k + 1) && Reads(s, d, c)
  {
    hide ParseBacks;
    hide ParsePipe;
    hide ParseExec;
    hide SkipSpace;
    d := Back(b);
    BackStep(s, k, b);
  }

  // Parsing the text of a command gives the command back.
  lemma ParserInvertsPrinter(c: Tree)
    requires Printable(c)
    ensures ParseCmd(Text(c, Line)).Ok? && CmdOk(Text(c, Line), ParseCmd(Text(c, Line)).cmd)
    ensures TreeOf(Text(c, Line), ParseCmd(Text(c, Line)).cmd) == c
  {
    var s := Text(c, Line);
    assert s[0..0 + |s|] == s;
    var d := RoundTrip(s, 0, c, Line);
  }

  // ---- The limit on arguments ----

  lemma {:induction false} ArgsOverflow(s: string, i: nat, argv: seq<Range>, more: seq<string>)
    requires |argv| < MAXARGS <= |argv| + |more| && At(s, i, Words(more)) && i + |Words(more)| == |s|
    requires forall k | 0 <= k < |more| :: PlainWord(more[k])
    ensures ParseArgs(s, i, argv, []) == Panic
    decreases |more|
  {
    hide SkipSpace;
    hide WordEnd;
    hide GetToken;
    hide At;
    hide Words;
    hide IsWord;
    hide IsPlain;
    var w := more[0];
    var k := i + |w|;
    assert PlainWord(w);
    WordsCut(more);
    if |more| == 1 {
      WordToken(s, i, w);
      FirstIsWord(s, i, argv);
    } else {
      AtParts(s, i, w + " ", Words(more[1..]));
      AtParts(s, i, w, " ");
      FirstOf(s, k, " ");
      SpaceEnds();
      WordToken(s, i, w);
      FirstIsWord(s, i, argv);
      if |argv| + 1 < MAXARGS {
        NextWord(s, k, more[1..]);
        var none: seq<Red> := [];
        ArgStep(s, i, GetToken(s, i), argv, none, none, k + 1);
        assert none + none == none;
        ArgsOverflow(s, k + 1, argv + [Range(i, k)], more[1..]);
      }
    }
  }

  lemma FirstIsWord(s: string, i: nat, argv: seq<Range>)
    requires i < |s| && IsPlain(s[i]) && GetToken(s, i).kind == Word
    ensures |argv| + 1 >= MAXARGS ==> ParseArgs(s, i, argv, []) == Panic
  {
    if |argv| + 1 >= MAXARGS {
      StaysPut(s, i);
    }
  }

  // A simple command is accepted exactly if it has fewer than MAXARGS words.
  lemma ArgLimit(argv: seq<string>)
    requires forall k | 0 <= k < |argv| :: PlainWord(argv[k])
    ensures ParseCmd(Words(argv)).Ok? <==> |argv| < MAXARGS
  {
    hide ParseArgs;
    hide ParseRedirs;
    hide ParseExec;
    hide ParseCmd;
    hide SkipSpace;
    hide Words;
    if |argv| < MAXARGS {
      JustWords(argv);
      ParserInvertsPrinter(TExec(argv));
    } else {
      var s := Words(argv);
      WordsFirst(argv);
      assert s[0..0 + |s|] == s;
      ArgsOverflow(s, 0, [], argv);
      NoRedirs(s, 0);
      ExecStep(s, 0, [], 0);
      PanicUp(s);
    }
  }

  lemma JustWords(argv: seq<string>)
    ensures Text(TExec(argv), Line) == Words(argv)
  {
  }

  lemma PanicUp(s: string)
    requires ParseExec(s, 0) == Panic
    ensures ParseCmd(s) == Panic
  {
    hide ParseExec;
    assert ParsePipe(s, 0) == Panic;
  }

  // ---- No pair of parentheses can be left out ----

  function Size(c: Cmd): nat
  {
    match c
    case Exec(_) => 1
    case Redir(d, _) => 1 + Size(d)
    case Pipe(l, r) => 1 + Size(l) + Size(r)
    case List(l, r) => 1 + Size(l) + Size(r)
    case Back(d) => 1 + Size(d)
  }

  function TreeSize(c: Tree): nat
  {
    match c
    case TExec(_) => 1
    case TRedir(d, _, _) => 1 + TreeSize(d)
    case TPipe(l, r) => 1 + TreeSize(l) + TreeSize(r)
    case TList(l, r) => 1 + TreeSize(l) + TreeSize(r)
    case TBack(d) => 1 + TreeSize(d)
  }

  lemma {:induction false} ReadSize(s: string, d: Cmd)
    requires CmdOk(s, d)
    ensures TreeSize(TreeOf(s, d)) == Size(d)
  {
    match d
    case Exec(_) =>
    case Redir(b, _) => ReadSize(s, b);
    case Pipe(l, r) => ReadSize(s, l); ReadSize(s, r);
    case List(l, r) => ReadSize(s, l); ReadSize(s, r);
    case Back(b) => ReadSize(s, b);
  }

  lemma {:induction false} BacksGrow(s: string, i: nat, c: Cmd)
    requires i <= |s|
    ensures Size(ParseBacks(s, i, c).cmd) >= Size(c)
    decreases |s| - i
  {
    if Peek(s, i, {'&'}) { BacksGrow(s, GetToken(s, i).next, Back(c)); }
  }

  // A pipeline is at least its first command.
  lemma PipeGrows(s: string, i: nat)
    requires i <= |s| && ParsePipe(s, i).Ok?
    ensures ParseExec(s, i).Ok? && Size(ParseExec(s, i).cmd) <= Size(ParsePipe(s, i).cmd)
  {
    hide ParseExec;
  }

  // What is left of a job without its ampersands.
  function Core(c: Tree): (r: Tree)
    ensures TreeSize(r) <= TreeSize(c) && (c.TBack? ==> TreeSize(r) < TreeSize(c))
  {
    if c.TBack? then Core(c.cmd) else c
  }

  // The pipeline that starts a job is the job without its ampersands.
  lemma {:induction false} JobStarts(s: string, i: nat, c: Tree)
    requires Printable(c) && At(s, i, Text(c, Job)) && Follow(s, i + |Text(c, Job)|, After(Job))
    ensures ParsePipe(s, i).Ok? && Reads(s, ParsePipe(s, i).cmd, Core(c))
    decreases c
  {
    hide At;
    hide Reads;
    hide ParsePipe;
    hide ParseExec;
    hide ParseLine;
    if c.TBack? {
      BackCut(s, i, c);
      FirstOf(s, i + |Text(c.cmd, Job)|, "&");
      hide Text;
      JobStarts(s, i, c.cmd);
    } else {
      assert Text(c, Job) == Text(c, Pipeline);
      hide Text;
      var d := RoundTrip(s, i, c, Pipeline);
    }
  }

  // Where c needs parentheses, its text without them is not read as c, whatever follows it.
  lemma ParensNeeded(s: string, i: nat, c: Tree, lv: Level, d: Cmd, end: nat)
    requires Printable(c) && !Fits(c, lv) && At(s, i, Text(c, Line)) && i <= |s| && Parses(s, i, lv, d, end)
    ensures !Reads(s, d, c)
  {
    hide At;
    hide ParsePipe;
    hide ParseExec;
    hide ParseLine;
    hide ParseBacks;
    assert Text(c, Line) == Text(c, Natural(c));
    var d1;
    match c
    case TPipe(l, _) =>
      PipeCut(s, i, c);
      FirstOf(s, i + |Text(l, Single)|, "|");
      hide Text;
      d1 := RoundTrip(s, i, l, Single);
      SmallerRead(s, d, d1, l, c);
    case TList(l, _) =>
      ListCut(s, i, c);
      var k := i + |Text(l, Job)|;
      FirstOf(s, k, ";");
      hide Text;
      d1 := RoundTrip(s, i, l, Job);
      BacksStop(s, k, d1);
      var p := ParsePipe(s, i);
      BacksGrow(s, p.pos, p.cmd);
      PipeGrows(s, i);
      if lv.Job? { BacksGrow(s, end, d); }
      SmallerRead(s, d, d1, l, c);
    case TBack(b) =>
      BackCut(s, i, c);
      FirstOf(s, i + |Text(b, Job)|, "&");
      hide Text;
      JobStarts(s, i, b);
      PipeGrows(s, i);
      SmallerRead(s, d, ParsePipe(s, i).cmd, Core(b), c);
  }

  lemma SmallerRead(s: string, d: Cmd, e: Cmd, t: Tree, c: Tree)
    requires Reads(s, e, t) && Size(d) <= Size(e) && TreeSize(t) < TreeSize(c)
    ensures !Reads(s, d, c)
  {
    ReadSize(s, e);
    if Reads(s, d, c) { ReadSize(s, d); }
  }
}

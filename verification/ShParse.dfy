/** The shell's grammar: tokens and the recursive-descent parser, as functions of the line and a position in it. */
module ShParse {

  const MAXARGS := 10
  const NUL := '\0'

  predicate IsSpace(c: char) { c == ' ' || c == '\t' || c == '\r' || c == '\n' || c == '\U{0B}' }

  predicate IsSymbol(c: char) { c == '<' || c == '|' || c == '>' || c == '&' || c == ';' || c == '(' || c == ')' }

  predicate IsPlain(c: char) { !IsSpace(c) && !IsSymbol(c) }

  // ---- Tokens ----

  function SkipSpace(s: string, i: nat): (j: nat)
    requires i <= |s|
    ensures i <= j <= |s| && (forall k | i <= k < j :: IsSpace(s[k])) && (j < |s| ==> !IsSpace(s[j]))
    decreases |s| - i
  {
    if i < |s| && IsSpace(s[i]) then SkipSpace(s, i + 1) else i
  }

  function WordEnd(s: string, i: nat): (j: nat)
    requires i <= |s|
    ensures i <= j <= |s| && (forall k | i <= k < j :: IsPlain(s[k])) && (j < |s| ==> !IsPlain(s[j]))
    decreases |s| - i
  {
    if i < |s| && IsPlain(s[i]) then WordEnd(s, i + 1) else i
  }

  datatype Kind = EndOfLine | Word | Symbol(c: char) | Append

  // What gettoken returns, the token's extent, and where the cursor is left.
  datatype Token = Token(kind: Kind, q: nat, eq: nat, next: nat)

  function GetToken(s: string, i: nat): (t: Token)
    requires i <= |s|
    ensures i <= t.q <= t.eq <= t.next <= |s|
    ensures t.kind != EndOfLine ==> t.q < t.eq
    ensures t.kind == Word ==> IsWord(s, t.q, t.eq)
  {
    var q := SkipSpace(s, i);
    if q == |s| then Token(EndOfLine, q, q, q)
    else if s[q] == '>' && q + 1 < |s| && s[q + 1] == '>' then Token(Append, q, q + 2, SkipSpace(s, q + 2))
    else if IsSymbol(s[q]) then Token(Symbol(s[q]), q, q + 1, SkipSpace(s, q + 1))
    else Token(Word, q, WordEnd(s, q), SkipSpace(s, WordEnd(s, q)))
  }

  lemma Spaces(c: char)
    ensures IsSpace(c) <==> c in " \t\r\n\U{0B}"
  {
    var all := " \t\r\n\U{0B}";
    assert all[0] == ' ' && all[1] == '\t' && all[2] == '\r' && all[3] == '\n' && all[4] == '\U{0B}';
  }

  lemma Symbols(c: char)
    ensures IsSymbol(c) <==> c in "<|>&;()"
    ensures IsPlain(c) <==> !IsSpace(c) && c !in "<|>&;()"
  {
    var all := "<|>&;()";
    assert all[0] == '<' && all[1] == '|' && all[2] == '>' && all[3] == '&' && all[4] == ';' && all[5] == '(';
    assert all[6] == ')';
  }

  // A token starts at the next character that is no space, and the cursor is left at the next one after it: nothing at
  // the end of the line, >> as one token of two characters, any other symbol by itself, and words in between.
  lemma TokenIs(s: string, i: nat)
    requires i <= |s|
    ensures var t := GetToken(s, i);
      && i <= t.q <= t.eq <= t.next <= |s|
      && (forall k | i <= k < t.q || t.eq <= k < t.next :: IsSpace(s[k]))
      && (t.q < |s| ==> !IsSpace(s[t.q])) && (t.next < |s| ==> !IsSpace(s[t.next]))
      && (t.kind == EndOfLine <==> t.q == |s|) && (t.kind == EndOfLine ==> t.eq == |s|)
      && (t.kind == Append <==> t.q + 1 < |s| && s[t.q] == '>' && s[t.q + 1] == '>')
      && (t.kind == Append ==> t.eq == t.q + 2)
      && (t.kind.Symbol? <==> t.q < |s| && IsSymbol(s[t.q]) && t.kind != Append)
      && (t.kind.Symbol? ==> t.kind.c == s[t.q] && t.eq == t.q + 1)
      && (t.kind == Word ==> t.q < t.eq && (forall k | t.q <= k < t.eq :: IsPlain(s[k])))
      && (t.kind == Word && t.eq < |s| ==> !IsPlain(s[t.eq]))
  {
  }

  // s[q..eq] is a whole word.
  predicate IsWord(s: string, q: nat, eq: nat)
  {
    q < eq <= |s| && (forall k | q <= k < eq :: IsPlain(s[k])) && (eq < |s| ==> !IsPlain(s[eq]))
  }

  predicate Peek(s: string, i: nat, toks: set<char>)
    requires i <= |s|
  {
    SkipSpace(s, i) < |s| && s[SkipSpace(s, i)] in toks
  }

  // ---- Commands, with the extents of their words in the line ----

  datatype Range = Range(q: nat, eq: nat)

  datatype Red = Red(file: Range, out: bool)

  datatype Cmd =
    | Exec(argv: seq<Range>)
    | Redir(cmd: Cmd, red: Red)
    | Pipe(left: Cmd, right: Cmd)
    | List(left: Cmd, right: Cmd)
    | Back(cmd: Cmd)

  datatype Result = Ok(cmd: Cmd, pos: nat) | Panic

  datatype Reds = Reds(reds: seq<Red>, pos: nat) | RedPanic

  function Wrap(c: Cmd, reds: seq<Red>): Cmd
    decreases |reds|
  {
    if reds == [] then c else Wrap(Redir(c, reds[0]), reds[1..])
  }

  // ---- The parser ----

  function ParseRedirs(s: string, i: nat): (r: Reds)
    requires i <= |s|
    ensures r.Reds? ==> i <= r.pos <= |s|
    decreases |s| - i
  {
    var j := SkipSpace(s, i);
    if !Peek(s, i, {'<', '>'}) then Reds([], j) else
      var tok := GetToken(s, j);
      var file := GetToken(s, tok.next);
      if file.kind != Word then RedPanic else
        match ParseRedirs(s, file.next)
        case Reds(reds, pos) => Reds([Red(Range(file.q, file.eq), tok.kind != Symbol('<'))] + reds, pos)
        case RedPanic => RedPanic
  }

  const STOPS := {'|', ')', '&', ';'}

  function ParseArgs(s: string, i: nat, argv: seq<Range>, reds: seq<Red>): (r: Result)
    requires i <= |s|
    ensures r.Ok? ==> i <= r.pos <= |s|
    decreases |s| - i
  {
    var j := SkipSpace(s, i);
    if Peek(s, i, STOPS) then Ok(Wrap(Exec(argv), reds), j) else
      var t := GetToken(s, j);
      if t.kind == EndOfLine then Ok(Wrap(Exec(argv), reds), t.next)
      else if t.kind != Word || |argv| + 1 >= MAXARGS then Panic
      else
        match ParseRedirs(s, t.next)
        case Reds(more, pos) => ParseArgs(s, pos, argv + [Range(t.q, t.eq)], reds + more)
        case RedPanic => Panic
  }

  function ParseExec(s: string, i: nat): (r: Result)
    requires i <= |s|
    ensures r.Ok? ==> i <= r.pos <= |s|
    decreases |s| - i, 1
  {
    var j := SkipSpace(s, i);
    if Peek(s, i, {'('}) then ParseBlock(s, j) else
      match ParseRedirs(s, j)
      case Reds(reds, pos) => ParseArgs(s, pos, [], reds)
      case RedPanic => Panic
  }

  function ParseBlock(s: string, i: nat): (r: Result)
    requires i <= |s|
    ensures r.Ok? ==> i <= r.pos <= |s|
    decreases |s| - i, 0
  {
    if !Peek(s, i, {'('}) then Panic else
      match ParseLine(s, GetToken(s, i).next)
      case Panic => Panic
      case Ok(c, k) =>
        if !Peek(s, k, {')'}) then Panic else
          match ParseRedirs(s, GetToken(s, k).next)
          case Reds(reds, pos) => Ok(Wrap(c, reds), pos)
          case RedPanic => Panic
  }

  function ParsePipe(s: string, i: nat): (r: Result)
    requires i <= |s|
    ensures r.Ok? ==> i <= r.pos <= |s|
    decreases |s| - i, 2
  {
    match ParseExec(s, i)
    case Panic => Panic
    case Ok(c, j) =>
      if !Peek(s, j, {'|'}) then Ok(c, SkipSpace(s, j)) else
        match ParsePipe(s, GetToken(s, j).next)
        case Panic => Panic
        case Ok(d, k) => Ok(Pipe(c, d), k)
  }

  // The ampersands after a pipeline.
  function ParseBacks(s: string, i: nat, c: Cmd): (r: Result)
    requires i <= |s|
    ensures r.Ok? && i <= r.pos <= |s|
    decreases |s| - i
  {
    if Peek(s, i, {'&'}) then ParseBacks(s, GetToken(s, i).next, Back(c)) else Ok(c, SkipSpace(s, i))
  }

  function ParseLine(s: string, i: nat): (r: Result)
    requires i <= |s|
    ensures r.Ok? ==> i <= r.pos <= |s|
    decreases |s| - i, 3
  {
    match ParsePipe(s, i)
    case Panic => Panic
    case Ok(c, j) =>
      var b := ParseBacks(s, j, c);
      if !Peek(s, b.pos, {';'}) then Ok(b.cmd, SkipSpace(s, b.pos)) else
        match ParseLine(s, GetToken(s, b.pos).next)
        case Panic => Panic
        case Ok(d, k) => Ok(List(b.cmd, d), k)
  }

  // A command for the whole line, or a syntax error.
  function ParseCmd(s: string): Result
  {
    match ParseLine(s, 0)
    case Panic => Panic
    case Ok(c, j) => if SkipSpace(s, j) != |s| then Panic else Ok(c, |s|)
  }

  // ---- The words of a command are whole words of the line ----

  predicate RangesOk(s: string, argv: seq<Range>) { forall k | 0 <= k < |argv| :: IsWord(s, argv[k].q, argv[k].eq) }

  predicate RedsOk(s: string,
                   reds: seq<Red>) { forall k | 0 <= k < |reds| :: IsWord(s, reds[k].file.q, reds[k].file.eq) }

  predicate CmdOk(s: string, c: Cmd)
  {
    match c
    case Exec(argv) => RangesOk(s, argv) && |argv| < MAXARGS
    case Redir(d, red) => CmdOk(s, d) && IsWord(s, red.file.q, red.file.eq)
    case Pipe(l, r) => CmdOk(s, l) && CmdOk(s, r)
    case List(l, r) => CmdOk(s, l) && CmdOk(s, r)
    case Back(d) => CmdOk(s, d)
  }

  lemma {:induction false} WrapOk(s: string, c: Cmd, reds: seq<Red>)
    requires CmdOk(s, c) && RedsOk(s, reds)
    ensures CmdOk(s, Wrap(c, reds))
    decreases |reds|
  {
    if reds != [] {
      WrapOk(s, Redir(c, reds[0]), reds[1..]);
    }
  }

  lemma {:induction false} RedirsOk(s: string, i: nat)
    requires i <= |s|
    ensures ParseRedirs(s, i).Reds? ==> RedsOk(s, ParseRedirs(s, i).reds)
    decreases |s| - i
  {
    var j := SkipSpace(s, i);
    if Peek(s, i, {'<', '>'}) {
      var file := GetToken(s, GetToken(s, j).next);
      if file.kind == Word {
        RedirsOk(s, file.next);
      }
    }
  }

  lemma {:induction false} ArgsOk(s: string, i: nat, argv: seq<Range>, reds: seq<Red>)
    requires i <= |s| && RangesOk(s, argv) && RedsOk(s, reds) && |argv| < MAXARGS
    ensures ParseArgs(s, i, argv, reds).Ok? ==> CmdOk(s, ParseArgs(s, i, argv, reds).cmd)
    decreases |s| - i
  {
    var j := SkipSpace(s, i);
    var t := GetToken(s, j);
    if Peek(s, i, STOPS) || t.kind == EndOfLine {
      WrapOk(s, Exec(argv), reds);
    } else if t.kind == Word && |argv| + 1 < MAXARGS {
      RedirsOk(s, t.next);
      var more := ParseRedirs(s, t.next);
      if more.Reds? {
        ArgsOk(s, more.pos, argv + [Range(t.q, t.eq)], reds + more.reds);
      }
    }
  }

  lemma {:induction false} ExecOk(s: string, i: nat)
    requires i <= |s|
    ensures ParseExec(s, i).Ok? ==> CmdOk(s, ParseExec(s, i).cmd)
    decreases |s| - i, 1
  {
    var j := SkipSpace(s, i);
    if Peek(s, i, {'('}) {
      BlockOk(s, j);
    } else {
      RedirsOk(s, j);
      var reds := ParseRedirs(s, j);
      if reds.Reds? {
        ArgsOk(s, reds.pos, [], reds.reds);
      }
    }
  }

  lemma {:induction false} BlockOk(s: string, i: nat)
    requires i <= |s|
    ensures ParseBlock(s, i).Ok? ==> CmdOk(s, ParseBlock(s, i).cmd)
    decreases |s| - i, 0
  {
    if Peek(s, i, {'('}) {
      var line := ParseLine(s, GetToken(s, i).next);
      LineOk(s, GetToken(s, i).next);
      if line.Ok? && Peek(s, line.pos, {')'}) {
        RedirsOk(s, GetToken(s, line.pos).next);
        var reds := ParseRedirs(s, GetToken(s, line.pos).next);
        if reds.Reds? {
          WrapOk(s, line.cmd, reds.reds);
        }
      }
    }
  }

  lemma {:induction false} PipeOk(s: string, i: nat)
    requires i <= |s|
    ensures ParsePipe(s, i).Ok? ==> CmdOk(s, ParsePipe(s, i).cmd)
    decreases |s| - i, 2
  {
    ExecOk(s, i);
    var r := ParseExec(s, i);
    if r.Ok? && Peek(s, r.pos, {'|'}) {
      PipeOk(s, GetToken(s, r.pos).next);
    }
  }

  lemma {:induction false} BacksOk(s: string, i: nat, c: Cmd)
    requires i <= |s| && CmdOk(s, c)
    ensures CmdOk(s, ParseBacks(s, i, c).cmd)
    decreases |s| - i
  {
    if Peek(s, i, {'&'}) {
      BacksOk(s, GetToken(s, i).next, Back(c));
    }
  }

  lemma {:induction false} LineOk(s: string, i: nat)
    requires i <= |s|
    ensures ParseLine(s, i).Ok? ==> CmdOk(s, ParseLine(s, i).cmd)
    decreases |s| - i, 3
  {
    PipeOk(s, i);
    var r := ParsePipe(s, i);
    if r.Ok? {
      BacksOk(s, r.pos, r.cmd);
      var b := ParseBacks(s, r.pos, r.cmd);
      if Peek(s, b.pos, {';'}) {
        LineOk(s, GetToken(s, b.pos).next);
      }
    }
  }

  // Every word of an accepted line's command is a whole word of the line, and no command has too many.
  lemma ParsedOk(s: string)
    ensures ParseCmd(s).Ok? ==> CmdOk(s, ParseCmd(s).cmd)
  {
    LineOk(s, 0);
  }
}

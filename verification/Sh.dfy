/** The shell's parser as it runs: a cursor over the line's buffer, and the buffer cut up at the end. */
module Sh {

  import P = ShParse

  class Parser {
    const buf: array<char>  // the line and its NUL
    var ps: nat
    ghost const line: string

    ghost predicate Valid()
      reads this, buf
    {
      && buf.Length == |line| + 1 && ps <= |line| && P.NUL !in line && buf[|line|] == P.NUL
      && forall k | 0 <= k < |line| :: buf[k] == line[k]
    }

    constructor (s: string)
      requires P.NUL !in s
      ensures Valid() && fresh(buf) && line == s && ps == 0
    {
      buf := new char[|s| + 1](i requires 0 <= i <= |s| => if i < |s| then s[i] else P.NUL);
      ps, line := 0, s;
    }

    method SkipSpace(i: nat) returns (s: nat)
      requires Valid() && i <= |line|
      ensures s == P.SkipSpace(line, i)
    {
      s := i;
      while s < buf.Length - 1 && P.IsSpace(buf[s])
        invariant i <= s <= |line| && P.SkipSpace(line, s) == P.SkipSpace(line, i)
      {
        s := s + 1;
      }
    }

    method SkipWord(i: nat) returns (s: nat)
      requires Valid() && i <= |line|
      ensures s == P.WordEnd(line, i)
    {
      s := i;
      while s < buf.Length - 1 && !P.IsSpace(buf[s]) && !P.IsSymbol(buf[s])
        invariant i <= s <= |line| && P.WordEnd(line, s) == P.WordEnd(line, i)
      {
        s := s + 1;
      }
    }

    method GetToken() returns (kind: P.Kind, q: nat, eq: nat)
      requires Valid()
      modifies this`ps
      ensures Valid() && P.Token(kind, q, eq, ps) == P.GetToken(line, old(ps))
      ensures old(ps) <= q <= eq <= ps <= |line| && (q < |line| ==> !P.IsSpace(line[q]))
      ensures forall k | old(ps) <= k < q || eq <= k < ps :: P.IsSpace(line[k])
      ensures kind == P.EndOfLine <==> q == |line|
      ensures kind == P.Append <==> q + 1 < |line| && line[q] == '>' && line[q + 1] == '>'
      ensures kind == P.Append ==> eq == q + 2
      ensures kind.Symbol? <==> q < |line| && P.IsSymbol(line[q]) && kind != P.Append
      ensures kind.Symbol? ==> kind.c == line[q] && eq == q + 1
      ensures kind == P.Word ==> forall k | q <= k < eq :: P.IsPlain(line[k])
      ensures kind == P.Word && eq < |line| ==> !P.IsPlain(line[eq])
    {
      hide P.GetToken;
      P.TokenIs(line, ps);
      kind, q, eq := Scan();
    }

    method Scan() returns (kind: P.Kind, q: nat, eq: nat)
      requires Valid()
      modifies this`ps
      ensures Valid() && P.Token(kind, q, eq, ps) == P.GetToken(line, old(ps))
    {
      hide P.SkipSpace;
      hide P.WordEnd;
      hide P.IsWord;
      q := SkipSpace(ps);
      var s := q;
      var c := buf[s];
      if c == P.NUL {
        kind := P.EndOfLine;
      } else if c == '>' {
        kind, s := P.Symbol('>'), s + 1;
        if buf[s] == '>' {
          kind, s := P.Append, s + 1;
        }
      } else if P.IsSymbol(c) {
        kind, s := P.Symbol(c), s + 1;
      } else {
        kind := P.Word;
        s := SkipWord(s);
      }
      eq := s;
      EndStays(line, s);
      ps := SkipSpace(s);
    }

    method Peek(toks: set<char>) returns (b: bool)
      requires Valid() && P.NUL !in toks
      modifies this`ps
      ensures Valid() && b == P.Peek(line, old(ps), toks) && ps == P.SkipSpace(line, old(ps))
    {
      hide P.SkipSpace;
      ps := SkipSpace(ps);
      b := buf[ps] in toks;
    }

    // parseredirs, with the redirections of the command so far.  Not ok: a file name is missing.
    method ParseRedirs(before: seq<P.Red>) returns (ok: bool, reds: seq<P.Red>)
      requires Valid()
      modifies this`ps
      ensures Valid() && old(ps) <= ps
      ensures ok <==> P.ParseRedirs(line, old(ps)).Reds?
      ensures ok ==> P.ParseRedirs(line, old(ps)).pos == ps && reds == before + P.ParseRedirs(line, old(ps)).reds
    {
      hide P.ParseRedirs;
      hide P.SkipSpace;
      hide P.GetToken;
      hide P.IsWord;
      hide P.Peek;
      ghost var i, found: seq<P.Red> := ps, [];
      reds := before;
      SameRedirs(line, i);
      var more := Peek({'<', '>'});
      while more
        invariant Valid() && i <= ps && reds == before + found && more == P.Peek(line, ps, {'<', '>'})
        invariant ps == P.SkipSpace(line, ps)
        invariant P.ParseRedirs(line, i) == Joined(found, P.ParseRedirs(line, ps))
        decreases |line| - ps
      {
        RedirsUnfold(line, ps);
        var tok, q0, eq0 := GetToken();
        var kind, q, eq := GetToken();
        if kind != P.Word {
          return false, reds;
        }
        var red := P.Red(P.Range(q, eq), tok != P.Symbol('<'));
        reds := reds + [red];
        JoinMore(found, red, P.ParseRedirs(line, ps));
        found := found + [red];
        SameRedirs(line, ps);
        more := Peek({'<', '>'});
      }
      RedirsDone(line, ps);
      ok := true;
    }

    // P.Panic is panic("syntax") and its like, which end the shell's child.
    method ParseExec() returns (r: P.Result)
      requires Valid()
      modifies this`ps
      ensures Valid() && old(ps) <= ps && Agrees(r, ps, P.ParseExec(line, old(ps)))
      decreases |line| - ps, 1
    {
      hide P.ParseRedirs;
      hide P.ParseArgs;
      hide P.ParseBlock;
      hide P.SkipSpace;
      hide P.GetToken;
      hide P.IsWord;
      ghost var i := ps;
      var block := Peek({'('});
      if block {
        r := ParseBlock();
        return;
      }
      var argv: seq<P.Range> := [];
      var ok, reds := ParseRedirs([]);
      if !ok {
        return P.Panic;
      }
      assert reds == P.ParseRedirs(line, P.SkipSpace(line, i)).reds;
      var stop := Peek(P.STOPS);
      ArgsSkip(line, P.ParseRedirs(line, P.SkipSpace(line, i)).pos, argv, reds);
      while !stop
        invariant Valid() && i <= ps && ps == P.SkipSpace(line, ps) && stop == P.Peek(line, ps, P.STOPS)
        invariant |argv| < P.MAXARGS
        invariant P.ParseExec(line, i) == P.ParseArgs(line, ps, argv, reds)
        decreases |line| - ps
      {
        ArgsUnfold(line, ps, argv, reds);
        var kind, q, eq := GetToken();
        if kind == P.EndOfLine {
          return P.Ok(P.Wrap(P.Exec(argv), reds), ps);
        }
        if kind != P.Word {
          return P.Panic;
        }
        argv := argv + [P.Range(q, eq)];
        if |argv| >= P.MAXARGS {
          return P.Panic;
        }
        ok, reds := ParseRedirs(reds);
        if !ok {
          return P.Panic;
        }
        ArgsSkip(line, ps, argv, reds);
        stop := Peek(P.STOPS);
      }
      ArgsDone(line, ps, argv, reds);
      r := P.Ok(P.Wrap(P.Exec(argv), reds), ps);
    }

    method ParseBlock() returns (r: P.Result)
      requires Valid()
      modifies this`ps
      ensures Valid() && old(ps) <= ps && Agrees(r, ps, P.ParseBlock(line, old(ps)))
      decreases |line| - ps, 0
    {
      hide P.ParseRedirs;
      hide P.ParseLine;
      hide P.IsWord;
      hide P.SkipSpace;
      hide P.WordEnd;
      hide P.GetToken;
      hide P.Peek;
      ghost var i := ps;
      BlockUnfold(line, i);
      PeekSkips(line, i, {'('});
      var open := Peek({'('});
      if !open {
        return P.Panic;
      }
      var kind, q, eq := GetToken();
      r := ParseLine();
      if r.Panic? {
        return;
      }
      PeekSkips(line, ps, {')'});
      var close := Peek({')'});
      if !close {
        return P.Panic;
      }
      kind, q, eq := GetToken();
      ghost var k := ps;
      var ok, reds := ParseRedirs([]);
      assert ok ==> reds == P.ParseRedirs(line, k).reds;
      r := if ok then P.Ok(P.Wrap(r.cmd, reds), ps) else P.Panic;
    }

    method ParsePipe() returns (r: P.Result)
      requires Valid()
      modifies this`ps
      ensures Valid() && old(ps) <= ps && Agrees(r, ps, P.ParsePipe(line, old(ps)))
      decreases |line| - ps, 2
    {
      hide P.ParseExec;
      hide P.ParsePipe;
      hide P.IsWord;
      hide P.SkipSpace;
      hide P.WordEnd;
      hide P.GetToken;
      hide P.Peek;
      PipeUnfold(line, ps);
      r := ParseExec();
      if r.Panic? {
        return;
      }
      var c := r.cmd;
      PeekSkips(line, ps, {'|'});
      var pipe := Peek({'|'});
      if pipe {
        var kind, q, eq := GetToken();
        r := ParsePipe();
        if r.Ok? {
          r := P.Ok(P.Pipe(c, r.cmd), ps);
        }
      } else {
        r := P.Ok(c, ps);
      }
    }

    method ParseLine() returns (r: P.Result)
      requires Valid()
      modifies this`ps
      ensures Valid() && old(ps) <= ps && Agrees(r, ps, P.ParseLine(line, old(ps)))
      decreases |line| - ps, 3
    {
      hide P.ParsePipe;
      hide P.ParseLine;
      hide P.ParseBacks;
      hide P.IsWord;
      hide P.SkipSpace;
      hide P.WordEnd;
      hide P.GetToken;
      hide P.Peek;
      ghost var i := ps;
      LineUnfold(line, i);
      r := ParsePipe();
      if r.Panic? {
        return;
      }
      var c := r.cmd;
      ghost var j := ps;
      PeekSkips(line, ps, {'&'});
      BacksSkip(line, ps, c);
      var back := Peek({'&'});
      while back
        invariant Valid() && j <= ps && ps == P.SkipSpace(line, ps) && back == P.Peek(line, ps, {'&'})
        invariant P.ParseBacks(line, j, r.cmd) == P.ParseBacks(line, ps, c)
        decreases |line| - ps
      {
        BacksUnfold(line, ps, c);
        PeekSkips(line, ps, {'&'});
        var kind, q, eq := GetToken();
        c := P.Back(c);
        PeekSkips(line, ps, {'&'});
        BacksSkip(line, ps, c);
        back := Peek({'&'});
      }
      BacksUnfold(line, ps, c);
      PeekSkips(line, ps, {';'});
      var list := Peek({';'});
      if list {
        var kind, q, eq := GetToken();
        r := ParseLine();
        if r.Ok? {
          r := P.Ok(P.List(c, r.cmd), ps);
        }
      } else {
        r := P.Ok(c, ps);
      }
    }

    // Put a NUL after every word of the command.
    method NulTerminate(c: P.Cmd)
      requires buf.Length == |line| + 1 && P.CmdOk(line, c)
      modifies buf
      ensures forall k: nat | k < buf.Length :: buf[k] == if EndsAt(c, k) then P.NUL else old(buf[k])
      decreases c
    {
      match c
      case Exec(argv) =>
        var i := 0;
        while i < |argv|
          invariant 0 <= i <= |argv|
          invariant forall k: nat | k < buf.Length :: buf[k] == if EndAmong(argv, i, k) then P.NUL else old(buf[k])
        {
          assert P.IsWord(line, argv[i].q, argv[i].eq);
          buf[argv[i].eq] := P.NUL;
          i := i + 1;
        }
      case Redir(d, red) =>
        NulTerminate(d);
        buf[red.file.eq] := P.NUL;
      case Pipe(l, r) =>
        NulTerminate(l);
        NulTerminate(r);
      case List(l, r) =>
        NulTerminate(l);
        NulTerminate(r);
      case Back(d) => NulTerminate(d);
    }

    // The whole of parsecmd: each word of the command is left as a string of its own.
    method ParseCmd() returns (r: P.Result)
      requires Valid() && ps == 0
      modifies this`ps, buf
      ensures r == P.ParseCmd(line)
      ensures r.Ok? ==> buf.Length == |line| + 1 && P.CmdOk(line, r.cmd)
      ensures r.Ok? ==> forall w: P.Range {:trigger HasWord(r.cmd, w)} | HasWord(r.cmd, w) :: IsString(buf[..], w, line)
    {
      hide P.ParseLine;
      hide P.SkipSpace;
      hide P.CmdOk;
      r := ParseLine();
      if r.Panic? {
        return;
      }
      var end := Peek({});
      if ps != buf.Length - 1 {
        return P.Panic;
      }
      P.ParsedOk(line);
      ghost var before := buf[..];
      NulTerminate(r.cmd);
      forall w: P.Range | HasWord(r.cmd, w) ensures IsString(buf[..], w, line) {
        WordKept(line, r.cmd, w, before, buf[..]);
      }
      r := P.Ok(r.cmd, ps);
    }
  }

  // Some of the first n words ends at k.
  ghost predicate EndAmong(argv: seq<P.Range>, n: nat, k: nat)
  {
    exists i :: 0 <= i < n && i < |argv| && argv[i].eq == k
  }

  ghost predicate EndsAt(c: P.Cmd, k: nat)
  {
    match c
    case Exec(argv) => EndAmong(argv, |argv|, k)
    case Redir(d, red) => EndsAt(d, k) || red.file.eq == k
    case Pipe(l, r) => EndsAt(l, k) || EndsAt(r, k)
    case List(l, r) => EndsAt(l, k) || EndsAt(r, k)
    case Back(d) => EndsAt(d, k)
  }

  // w is the extent of an argument or file name of c.
  ghost predicate HasWord(c: P.Cmd, w: P.Range)
  {
    match c
    case Exec(argv) => w in argv
    case Redir(d, red) => HasWord(d, w) || red.file == w
    case Pipe(l, r) => HasWord(l, w) || HasWord(r, w)
    case List(l, r) => HasWord(l, w) || HasWord(r, w)
    case Back(d) => HasWord(d, w)
  }

  // From w.q on, the buffer holds the word's text and then its NUL.
  ghost predicate IsString(buf: seq<char>, w: P.Range, line: string)
  {
    && w.q < w.eq < |buf| && w.eq <= |line| && buf[w.q..w.eq] == line[w.q..w.eq] && buf[w.eq] == P.NUL
    && P.NUL !in buf[w.q..w.eq]
  }

  lemma {:induction false} WordEnds(line: string, c: P.Cmd, w: P.Range)
    requires P.CmdOk(line, c) && HasWord(c, w)
    ensures P.IsWord(line, w.q, w.eq) && EndsAt(c, w.eq)
  {
    match c
    case Exec(argv) =>
      var i :| 0 <= i < |argv| && argv[i] == w;
      assert P.IsWord(line, argv[i].q, argv[i].eq);
    case Redir(d, red) => if HasWord(d, w) { WordEnds(line, d, w); }
    case Pipe(l, r) => if HasWord(l, w) { WordEnds(line, l, w); } else { WordEnds(line, r, w); }
    case List(l, r) => if HasWord(l, w) { WordEnds(line, l, w); } else { WordEnds(line, r, w); }
    case Back(d) => WordEnds(line, d, w);
  }

  // No word ends inside a word.
  lemma {:induction false} EndIsOutside(line: string, c: P.Cmd, k: nat)
    requires P.CmdOk(line, c) && EndsAt(c, k)
    ensures k <= |line| && (k < |line| ==> !P.IsPlain(line[k]))
  {
    match c
    case Exec(argv) =>
      var i :| 0 <= i < |argv| && argv[i].eq == k;
      assert P.IsWord(line, argv[i].q, argv[i].eq);
    case Redir(d, red) => if EndsAt(d, k) { EndIsOutside(line, d, k); }
    case Pipe(l, r) => if EndsAt(l, k) { EndIsOutside(line, l, k); } else { EndIsOutside(line, r, k); }
    case List(l, r) => if EndsAt(l, k) { EndIsOutside(line, l, k); } else { EndIsOutside(line, r, k); }
    case Back(d) => EndIsOutside(line, d, k);
  }

  lemma WordKept(line: string, c: P.Cmd, w: P.Range, before: seq<char>, after: seq<char>)
    requires P.CmdOk(line, c) && HasWord(c, w) && P.NUL !in line
    requires |before| == |after| == |line| + 1 && forall k | 0 <= k < |line| :: before[k] == line[k]
    requires forall k: nat | k < |after| :: after[k] == if EndsAt(c, k) then P.NUL else before[k]
    ensures IsString(after, w, line)
  {
    hide P.CmdOk;
    hide EndsAt;
    hide HasWord;
    WordEnds(line, c, w);
    forall k: nat | w.q <= k < w.eq ensures after[k] == line[k] {
      if EndsAt(c, k) {
        EndIsOutside(line, c, k);
      }
    }
    assert after[w.q..w.eq] == line[w.q..w.eq];
  }

  // The method's result and cursor are the function's result.
  predicate Agrees(r: P.Result, ps: nat, want: P.Result)
  {
    r == want && (r.Ok? ==> r.pos == ps)
  }

  lemma EndStays(s: string, i: nat)
    requires i <= |s|
    ensures i == |s| ==> P.SkipSpace(s, i) == i
  {
  }

  // ---- One unfolding of each function of the grammar ----

  ghost function Joined(found: seq<P.Red>, r: P.Reds): P.Reds
  {
    if r.Reds? then P.Reds(found + r.reds, r.pos) else P.RedPanic
  }

  // Leading spaces make no difference.
  lemma SameRedirs(s: string, i: nat)
    requires i <= |s|
    ensures var j := P.SkipSpace(s, i);
      && P.SkipSpace(s, j) == j && P.ParseRedirs(s, i) == P.ParseRedirs(s, j)
      && P.Peek(s, i, {'<', '>'}) == P.Peek(s, j, {'<', '>'})
    ensures P.ParseRedirs(s, i) == Joined([], P.ParseRedirs(s, i))
  {
  }

  lemma RedirsUnfold(s: string, j: nat)
    requires j <= |s| && P.SkipSpace(s, j) == j && P.Peek(s, j, {'<', '>'})
    ensures var tok := P.GetToken(s, j); var file := P.GetToken(s, tok.next);
      && tok.kind != P.EndOfLine
      && P.ParseRedirs(s, j) == if file.kind != P.Word then P.RedPanic
                                else Joined([P.Red(P.Range(file.q, file.eq), tok.kind != P.Symbol('<'))],
                                            P.ParseRedirs(s, file.next))
  {
  }

  lemma RedirsDone(s: string, j: nat)
    requires j <= |s| && P.SkipSpace(s, j) == j && !P.Peek(s, j, {'<', '>'})
    ensures P.ParseRedirs(s, j) == P.Reds([], j)
  {
  }

  lemma JoinMore(found: seq<P.Red>, red: P.Red, r: P.Reds)
    ensures Joined(found, Joined([red], r)) == Joined(found + [red], r)
  {
    if r.Reds? {
      assert found + ([red] + r.reds) == found + [red] + r.reds;
    }
  }

  lemma ArgsSkip(s: string, i: nat, argv: seq<P.Range>, reds: seq<P.Red>)
    requires i <= |s|
    ensures var j := P.SkipSpace(s, i);
      && P.SkipSpace(s, j) == j && P.ParseArgs(s, i, argv, reds) == P.ParseArgs(s, j, argv, reds)
      && P.Peek(s, i, P.STOPS) == P.Peek(s, j, P.STOPS)
  {
  }

  lemma ArgsUnfold(s: string, j: nat, argv: seq<P.Range>, reds: seq<P.Red>)
    requires j <= |s| && P.SkipSpace(s, j) == j && !P.Peek(s, j, P.STOPS)
    ensures var t := P.GetToken(s, j); var more := P.ParseRedirs(s, t.next);
      P.ParseArgs(s, j, argv, reds) ==
        if t.kind == P.EndOfLine then P.Ok(P.Wrap(P.Exec(argv), reds), t.next)
        else if t.kind != P.Word || |argv| + 1 >= P.MAXARGS || more.RedPanic? then P.Panic
        else P.ParseArgs(s, more.pos, argv + [P.Range(t.q, t.eq)], reds + more.reds)
  {
  }

  lemma ArgsDone(s: string, j: nat, argv: seq<P.Range>, reds: seq<P.Red>)
    requires j <= |s| && P.SkipSpace(s, j) == j && P.Peek(s, j, P.STOPS)
    ensures P.ParseArgs(s, j, argv, reds) == P.Ok(P.Wrap(P.Exec(argv), reds), j)
  {
  }

  // Peeking moves the cursor over spaces, which the next token would skip.
  lemma PeekSkips(s: string, i: nat, toks: set<char>)
    requires i <= |s|
    ensures var j := P.SkipSpace(s, i);
      P.SkipSpace(s, j) == j && P.GetToken(s, j) == P.GetToken(s, i) && P.Peek(s, i, toks) == P.Peek(s, j, toks)
    ensures P.Peek(s, i, toks) ==> P.GetToken(s, i).kind != P.EndOfLine
  {
  }

  lemma BlockUnfold(s: string, i: nat)
    requires i <= |s|
    ensures P.ParseBlock(s, i) ==
      if !P.Peek(s, i, {'('}) then P.Panic else
        var c := P.ParseLine(s, P.GetToken(s, i).next);
        if c.Panic? || !P.Peek(s, c.pos, {')'}) then P.Panic else
          var r := P.ParseRedirs(s, P.GetToken(s, c.pos).next);
          if r.RedPanic? then P.Panic else P.Ok(P.Wrap(c.cmd, r.reds), r.pos)
  {
    hide P.ParseLine;
    hide P.ParseRedirs;
    hide P.SkipSpace;
    hide P.GetToken;
  }

  lemma PipeUnfold(s: string, i: nat)
    requires i <= |s|
    ensures P.ParsePipe(s, i) ==
      var c := P.ParseExec(s, i);
      if c.Panic? then P.Panic
      else if !P.Peek(s, c.pos, {'|'}) then P.Ok(c.cmd, P.SkipSpace(s, c.pos))
      else
        var d := P.ParsePipe(s, P.GetToken(s, c.pos).next);
        if d.Panic? then P.Panic else P.Ok(P.Pipe(c.cmd, d.cmd), d.pos)
  {
    hide P.ParseExec;
    hide P.SkipSpace;
    hide P.GetToken;
  }

  lemma LineUnfold(s: string, i: nat)
    requires i <= |s|
    ensures P.ParseLine(s, i) ==
      var p := P.ParsePipe(s, i);
      if p.Panic? then P.Panic else
        var b := P.ParseBacks(s, p.pos, p.cmd);
        if !P.Peek(s, b.pos, {';'}) then P.Ok(b.cmd, P.SkipSpace(s, b.pos))
        else
          var d := P.ParseLine(s, P.GetToken(s, b.pos).next);
          if d.Panic? then P.Panic else P.Ok(P.List(b.cmd, d.cmd), d.pos)
  {
    hide P.ParsePipe;
    hide P.ParseBacks;
    hide P.SkipSpace;
    hide P.GetToken;
  }

  lemma BacksSkip(s: string, i: nat, c: P.Cmd)
    requires i <= |s|
    ensures P.ParseBacks(s, i, c) == P.ParseBacks(s, P.SkipSpace(s, i), c)
  {
    PeekSkips(s, i, {'&'});
  }

  lemma BacksUnfold(s: string, j: nat, c: P.Cmd)
    requires j <= |s| && P.SkipSpace(s, j) == j
    ensures P.ParseBacks(s, j, c) ==
              if P.Peek(s, j, {'&'}) then P.ParseBacks(s, P.GetToken(s, j).next, P.Back(c)) else P.Ok(c, j)
  {
  }
}

/** The shell reads >> as it reads >: both create the file if need be and write it from its start. */
module ShAppend {

  import opened ShParse
  import opened ShPrint

  // A token >> starts at q.
  ghost predicate Doubled(s: string, q: nat)
  {
    q + 1 < |s| && s[q] == '>' && s[q + 1] == '>' && (q > 0 ==> s[q - 1] != '>')
  }

  // The same line with a space for the second >.
  function Once(s: string, q: nat): string
    requires q + 1 < |s|
  {
    s[q + 1 := ' ']
  }

  lemma SameLength(s: string, q: nat)
    requires q + 1 < |s|
    ensures |Once(s, q)| == |s|
  {
  }

  lemma SameChar(s: string, q: nat, k: nat)
    requires q + 1 < |s|
    ensures |Once(s, q)| == |s| && (k < |s| ==> Once(s, q)[k] == if k == q + 1 then ' ' else s[k])
  {
  }

  lemma {:induction false} SkipIs(s: string, i: nat, j: nat)
    requires i <= j <= |s| && (forall k | i <= k < j :: IsSpace(s[k])) && (j < |s| ==> !IsSpace(s[j]))
    ensures SkipSpace(s, i) == j
    decreases j - i
  {
    if i < j {
      SkipIs(s, i + 1, j);
    }
  }

  lemma SameSkip(s: string, q: nat, i: nat)
    requires Doubled(s, q) && i <= |s| && i != q + 1
    ensures SkipSpace(Once(s, q), i) == SkipSpace(s, i) != q + 1
    ensures SkipSpace(Once(s, q), q + 1) == SkipSpace(s, q + 2) != q + 1
  {
    SkipIs(Once(s, q), i, SkipSpace(s, i));
    SkipIs(Once(s, q), q + 1, SkipSpace(s, q + 2));
  }

  lemma SameWord(s: string, q: nat, j: nat)
    requires Doubled(s, q) && j <= |s| && j != q + 1 && (j < |s| ==> IsPlain(s[j]))
    ensures WordEnd(Once(s, q), j) == WordEnd(s, j) != q + 1
  {
    EndsAt(Once(s, q), j, WordEnd(s, j));
  }

  lemma SameToken(s: string, q: nat, i: nat)
    requires Doubled(s, q) && i <= |s| && i != q + 1
    ensures var t, u := GetToken(s, i), GetToken(Once(s, q), i);
      && t.next == u.next != q + 1 && t.q == u.q
      && (if t.q == q then t.kind == Append && u.kind == Symbol('>') else t == u)
  {
    hide SkipSpace;
    hide WordEnd;
    hide IsWord;
    hide Once;
    SameSkip(s, q, i);
    var j := SkipSpace(s, i);
    SameChar(s, q, j);
    SameChar(s, q, j + 1);
    if j == q {
      SameSkip(s, q, q + 2);
    } else if j < |s| {
      if IsPlain(s[j]) {
        SameWord(s, q, j);
      }
      SameSkip(s, q, GetToken(s, i).eq);
    }
  }

  lemma SamePeek(s: string, q: nat, i: nat, toks: set<char>)
    requires Doubled(s, q) && i <= |s| && i != q + 1
    ensures Peek(Once(s, q), i, toks) == Peek(s, i, toks)
  {
    SameSkip(s, q, i);
  }

  lemma {:induction false} SameReds(s: string, q: nat, i: nat)
    requires Doubled(s, q) && i <= |s| && i != q + 1
    ensures var r := ParseRedirs(s, i); ParseRedirs(Once(s, q), i) == r && (r.Reds? ==> r.pos != q + 1)
    decreases |s| - i
  {
    hide SkipSpace;
    hide GetToken;
    hide IsWord;
    hide Peek;
    hide Once;
    SameSkip(s, q, i);
    SamePeek(s, q, i, {'<', '>'});
    if Peek(s, i, {'<', '>'}) {
      var j := SkipSpace(s, i);
      var tok := GetToken(s, j);
      SameToken(s, q, j);
      SameToken(s, q, tok.next);
      var file := GetToken(s, tok.next);
      PeekToken(s, i);
      if file.kind == Word {
        SameReds(s, q, file.next);
      }
    }
  }

  // What is peeked at is there to be read.
  lemma PeekToken(s: string, i: nat)
    requires i <= |s| && Peek(s, i, {'<', '>'})
    ensures SkipSpace(s, SkipSpace(s, i)) == SkipSpace(s, i) == GetToken(s, SkipSpace(s, i)).q
    ensures GetToken(s, SkipSpace(s, i)).kind != EndOfLine
  {
  }

  lemma {:induction false} SameArgs(s: string, q: nat, i: nat, argv: seq<Range>, reds: seq<Red>)
    requires Doubled(s, q) && i <= |s| && i != q + 1
    ensures var r := ParseArgs(s, i, argv, reds);
      ParseArgs(Once(s, q), i, argv, reds) == r && (r.Ok? ==> r.pos != q + 1)
    decreases |s| - i
  {
    hide SkipSpace;
    hide GetToken;
    hide IsWord;
    hide Peek;
    hide Once;
    hide ParseRedirs;
    hide Wrap;
    SameLength(s, q);
    SameSkip(s, q, i);
    SamePeek(s, q, i, STOPS);
    var t := GetToken(s, SkipSpace(s, i));
    SameToken(s, q, SkipSpace(s, i));
    if !Peek(s, i, STOPS) && t.kind == Word && |argv| + 1 < MAXARGS {
      SameReds(s, q, t.next);
      var more := ParseRedirs(s, t.next);
      if more.Reds? {
        SameArgs(s, q, more.pos, argv + [Range(t.q, t.eq)], reds + more.reds);
      }
    }
  }

  lemma {:induction false} SameExec(s: string, q: nat, i: nat)
    requires Doubled(s, q) && i <= |s| && i != q + 1
    ensures var r := ParseExec(s, i); ParseExec(Once(s, q), i) == r && (r.Ok? ==> r.pos != q + 1)
    decreases |s| - i, 1
  {
    hide SkipSpace;
    hide GetToken;
    hide Peek;
    hide Once;
    hide ParseRedirs;
    hide ParseArgs;
    hide ParseBlock;
    SameLength(s, q);
    SameSkip(s, q, i);
    SamePeek(s, q, i, {'('});
    var j := SkipSpace(s, i);
    if Peek(s, i, {'('}) {
      SameBlock(s, q, j);
    } else {
      SameReds(s, q, j);
      var reds := ParseRedirs(s, j);
      if reds.Reds? {
        SameArgs(s, q, reds.pos, [], reds.reds);
      }
    }
  }

  lemma {:induction false} SameBlock(s: string, q: nat, i: nat)
    requires Doubled(s, q) && i <= |s| && i != q + 1
    ensures var r := ParseBlock(s, i); ParseBlock(Once(s, q), i) == r && (r.Ok? ==> r.pos != q + 1)
    decreases |s| - i, 0
  {
    hide SkipSpace;
    hide Once;
    hide ParseRedirs;
    hide ParseLine;
    hide Wrap;
    SameLength(s, q);
    SamePeek(s, q, i, {'('});
    SameToken(s, q, i);
    if Peek(s, i, {'('}) {
      var open := GetToken(s, i);
      SameLine(s, q, open.next);
      var line := ParseLine(s, open.next);
      if line.Ok? {
        SamePeek(s, q, line.pos, {')'});
        SameToken(s, q, line.pos);
        SameReds(s, q, GetToken(s, line.pos).next);
      }
    }
  }

  lemma {:induction false} SamePipe(s: string, q: nat, i: nat)
    requires Doubled(s, q) && i <= |s| && i != q + 1
    ensures var r := ParsePipe(s, i); ParsePipe(Once(s, q), i) == r && (r.Ok? ==> r.pos != q + 1)
    decreases |s| - i, 2
  {
    hide SkipSpace;
    hide Once;
    hide ParseExec;
    SameLength(s, q);
    SameExec(s, q, i);
    var c := ParseExec(s, i);
    if c.Ok? {
      SameSkip(s, q, c.pos);
      SamePeek(s, q, c.pos, {'|'});
      SameToken(s, q, c.pos);
      if Peek(s, c.pos, {'|'}) {
        SamePipe(s, q, GetToken(s, c.pos).next);
      }
    }
  }

  lemma {:induction false} SameBacks(s: string, q: nat, i: nat, c: Cmd)
    requires Doubled(s, q) && i <= |s| && i != q + 1
    ensures var r := ParseBacks(s, i, c); ParseBacks(Once(s, q), i, c) == r && r.pos != q + 1
    decreases |s| - i
  {
    hide SkipSpace;
    hide Once;
    SameLength(s, q);
    SameSkip(s, q, i);
    SamePeek(s, q, i, {'&'});
    SameToken(s, q, i);
    if Peek(s, i, {'&'}) {
      SameBacks(s, q, GetToken(s, i).next, Back(c));
    }
  }

  lemma {:induction false} SameLine(s: string, q: nat, i: nat)
    requires Doubled(s, q) && i <= |s| && i != q + 1
    ensures var r := ParseLine(s, i); ParseLine(Once(s, q), i) == r && (r.Ok? ==> r.pos != q + 1)
    decreases |s| - i, 3
  {
    hide SkipSpace;
    hide Once;
    hide ParsePipe;
    hide ParseBacks;
    SameLength(s, q);
    SamePipe(s, q, i);
    var p := ParsePipe(s, i);
    if p.Ok? {
      SameBacks(s, q, p.pos, p.cmd);
      var b := ParseBacks(s, p.pos, p.cmd);
      SameSkip(s, q, b.pos);
      SamePeek(s, q, b.pos, {';'});
      SameToken(s, q, b.pos);
      if Peek(s, b.pos, {';'}) {
        SameLine(s, q, GetToken(s, b.pos).next);
      }
    }
  }

  // A line with > for one of its >> is accepted or refused alike, and gives the same command, word for word.
  lemma AppendIsWrite(s: string, q: nat)
    requires q + 1 < |s| && s[q] == '>' && s[q + 1] == '>' && (q > 0 ==> s[q - 1] != '>')
    ensures ParseCmd(s[q + 1 := ' ']) == ParseCmd(s)
    ensures GetToken(s, q).kind == Append && GetToken(s, q).eq == q + 2
  {
    hide ParseLine;
    hide SkipSpace;
    SameLine(s, q, 0);
    SameToken(s, q, q);
    StaysPut(s, q);
    var r := ParseLine(s, 0);
    if r.Ok? {
      SameSkip(s, q, r.pos);
    }
  }
}

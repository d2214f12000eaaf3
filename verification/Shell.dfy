/** The shell's parser (user/sh.c), which works on characters, against the grammar on tokens. */
module Shell {
  import opened Common
  import opened ShellGrammar
  import opened ShellLex

  /** What a parsing function leaves: a tree and the cursor, or a panic. */
  datatype Outcome = Ok(cmd: Cmd<Loc>, pos: nat) | Panicked

  /** The parsing function has done what the grammar says. */
  ghost predicate Agrees(s: string, r: Outcome, p: Parsed<Loc>)
  {
    && (r.Panicked? <==> p.Panic?)
    && (r.Ok? ==> p.Parsed? && r.pos <= |s| && r.cmd == p.cmd && Lex(s, r.pos) == p.rest)
  }

  /** gettoken(): the next token, or none at the end of the input; the cursor moves past white space. */
  method GetToken(s: string, pos: nat) returns (tok: Option<Tok<Loc>>, next: nat)
    requires pos <= |s|
    ensures next <= |s| && (tok.None? <==> Lex(s, pos) == [])
    ensures tok.Some? ==> tok.value == Lex(s, pos)[0] && Lex(s, next) == Lex(s, pos)[1..]
    ensures tok.None? ==> Lex(s, next) == []
  {
    hide Lex;
    var p := pos;
    while p < |s| && IsSpace(s[p])
      invariant pos <= p <= |s| && SkipSpace(s, pos) == SkipSpace(s, p)
    {
      p := p + 1;
    }
    SkipTwice(s, pos);
    next := p;
    if p == |s| {
      tok := None;
      LexEnd(s);
    } else {
      LexStep(s, p);
      match s[p] {
        case '|' => tok, next := Some(Bar), p + 1;
        case '(' => tok, next := Some(Open), p + 1;
        case ')' => tok, next := Some(Close), p + 1;
        case ';' => tok, next := Some(Semi), p + 1;
        case '&' => tok, next := Some(Amp), p + 1;
        case '<' => tok, next := Some(Less), p + 1;
        case '>' =>
          tok, next := Some(Greater), p + 1;
          if next < |s| && s[next] == '>' {
            tok, next := Some(Append), next + 1;
          }
        case _ =>
          while next < |s| && !IsSpace(s[next]) && !IsSymbol(s[next])
            invariant p <= next <= |s| && WordEnd(s, p) == WordEnd(s, next)
          {
            next := next + 1;
          }
          tok := Some(Word(Loc(p, next)));
      }
      assert (tok.value, next) == TokAt(s, p);
    }
    ghost var end := next;
    while next < |s| && IsSpace(s[next])
      invariant end <= next <= |s| && SkipSpace(s, end) == SkipSpace(s, next)
    {
      next := next + 1;
    }
    SkipTwice(s, end);
  }

  /** peek(): whether the next token starts with one of these characters; the cursor moves past white space. */
  method Peek(s: string, pos: nat, toks: string) returns (found: bool, next: nat)
    requires pos <= |s|
    ensures pos <= next <= |s| && Lex(s, next) == Lex(s, pos) && (Lex(s, pos) == [] <==> next == |s|)
    ensures found <==> next < |s| && s[next] in toks
    ensures next < |s| ==> !IsSpace(s[next]) && Lex(s, pos)[0] == TokAt(s, next).0
  {
    hide Lex, TokAt;
    next := pos;
    while next < |s| && IsSpace(s[next])
      invariant pos <= next <= |s| && SkipSpace(s, pos) == SkipSpace(s, next)
    {
      next := next + 1;
    }
    SkipTwice(s, pos);
    LexEnd(s);
    if next < |s| {
      LexStep(s, next);
    }
    found := next < |s| && s[next] in toks;
  }

  /** parseredirs() */
  method ParseRedirs(cmd: Cmd<Loc>, s: string, pos: nat) returns (r: Outcome)
    requires pos <= |s|
    ensures Agrees(s, r, Redirs(cmd, Lex(s, pos)))
  {
    hide Lex, TokAt;
    var c, p: nat := cmd, pos;
    ghost var goal := Redirs(cmd, Lex(s, pos));
    while true
      invariant p <= |s| && Redirs(c, Lex(s, p)) == goal
      decreases |Lex(s, p)|
    {
      var more;
      more, p := Peek(s, p, "<>");
      RedirChars(s, p);
      if !more {
        return Ok(c, p);
      }
      ghost var ts := Lex(s, p);
      var tok, file;
      tok, p := GetToken(s, p);
      file, p := GetToken(s, p);
      if file.None? || !file.value.Word? {
        return Panicked;
      }
      assert ts[2..] == ts[1..][1..];
      if tok.value.Less? {
        c := Redir(c, Input, file.value.w);
      } else if tok.value.Greater? {
        c := Redir(c, Output, file.value.w);
      } else {
        c := Redir(c, Extend, file.value.w);
      }
    }
  }

  lemma RedirChars(s: string, p: nat)
    requires p <= |s| && (p < |s| ==> !IsSpace(s[p]))
    ensures p < |s| && s[p] in "<>" <==> Lex(s, p) != [] && IsRedir(Lex(s, p)[0])
  {
  }

  lemma SymbolChars(s: string, p: nat)
    requires p <= |s| && (p < |s| ==> !IsSpace(s[p]))
    ensures p < |s| && s[p] in "(" <==> Lex(s, p) != [] && Lex(s, p)[0].Open?
    ensures p < |s| && s[p] in ")" <==> Lex(s, p) != [] && Lex(s, p)[0].Close?
    ensures p < |s| && s[p] in "|" <==> Lex(s, p) != [] && Lex(s, p)[0].Bar?
    ensures p < |s| && s[p] in "&" <==> Lex(s, p) != [] && Lex(s, p)[0].Amp?
    ensures p < |s| && s[p] in ";" <==> Lex(s, p) != [] && Lex(s, p)[0].Semi?
    ensures p == |s| || s[p] in "|)&;" <==> Stops(Lex(s, p))
  {
  }

  /** parseexec() */
  method ParseExec(s: string, pos: nat) returns (r: Outcome)
    requires pos <= |s|
    ensures Agrees(s, r, Simple(Lex(s, pos)))
    decreases |Lex(s, pos)|, 0
  {
    hide Lex, TokAt, Redirs, Line;
    var block, p := Peek(s, pos, "(");
    SymbolChars(s, p);
    if block {
      r := ParseBlock(s, p);
      return;
    }
    r := ParseRedirs(Exec([]), s, p);
    if r.Panicked? {
      return;
    }
    ghost var goal := Simple(Lex(s, pos));
    var argc: nat, ret := 0, r.cmd;
    p := r.pos;
    while true
      invariant 0 <= p <= |s| && Args(ret, argc, Lex(s, p)) == goal && argc < MAXARGS
      decreases |Lex(s, p)|
    {
      var stop, tok;
      stop, p := Peek(s, p, "|)&;");
      SymbolChars(s, p);
      if stop {
        return Ok(ret, p);
      }
      ghost var ts := Lex(s, p);
      tok, p := GetToken(s, p);
      if tok.None? {
        return Ok(ret, p);
      }
      if !tok.value.Word? {
        return Panicked;
      }
      argc := argc + 1;
      if argc >= MAXARGS {
        return Panicked;
      }
      assert ts == [Word(tok.value.w)] + Lex(s, p);
      ArgsStep(ret, argc - 1, tok.value.w, Lex(s, p));
      r := ParseRedirs(WithArg(ret, tok.value.w), s, p);
      if r.Panicked? {
        return;
      }
      ret, p := r.cmd, r.pos;
    }
  }

  /** parseblock(); its first panic cannot happen, since its caller has seen the parenthesis. */
  method ParseBlock(s: string, pos: nat) returns (r: Outcome)
    requires pos <= |s| && Lex(s, pos) != [] && Lex(s, pos)[0].Open?
    ensures Agrees(s, r, Block(Lex(s, pos)))
    decreases |Lex(s, pos)|, 0, 0
  {
    hide Lex, TokAt, Redirs, Line;
    var tok, p := GetToken(s, pos);
    r := ParseLine(s, p);
    if r.Panicked? {
      return;
    }
    var close, cmd;
    cmd := r.cmd;
    close, p := Peek(s, r.pos, ")");
    SymbolChars(s, p);
    if !close {
      return Panicked;
    }
    tok, p := GetToken(s, p);
    r := ParseRedirs(cmd, s, p);
  }

  /** parsepipe() */
  method ParsePipe(s: string, pos: nat) returns (r: Outcome)
    requires pos <= |s|
    ensures Agrees(s, r, Pipeline(Lex(s, pos)))
    decreases |Lex(s, pos)|, 1
  {
    hide Lex, TokAt, Simple;
    r := ParseExec(s, pos);
    if r.Panicked? {
      return;
    }
    var bar, tok, p;
    var cmd := r.cmd;
    bar, p := Peek(s, r.pos, "|");
    SymbolChars(s, p);
    if bar {
      tok, p := GetToken(s, p);
      r := ParsePipe(s, p);
      if r.Ok? {
        r := Ok(Pipe(cmd, r.cmd), r.pos);
      }
    } else {
      r := Ok(cmd, p);
    }
  }

  /** parseline() */
  method ParseLine(s: string, pos: nat) returns (r: Outcome)
    requires pos <= |s|
    ensures Agrees(s, r, Line(Lex(s, pos)))
    decreases |Lex(s, pos)|, 2
  {
    hide Lex, TokAt, Pipeline;
    r := ParsePipe(s, pos);
    if r.Panicked? {
      return;
    }
    var cmd, p: nat := r.cmd, r.pos;
    ghost var goal := Backs(cmd, Lex(s, p));
    var found, tok;
    while true
      invariant p <= |s| && Backs(cmd, Lex(s, p)) == goal && |Lex(s, p)| <= |Lex(s, pos)|
      decreases |Lex(s, p)|
    {
      found, p := Peek(s, p, "&");
      SymbolChars(s, p);
      if !found {
        break;
      }
      tok, p := GetToken(s, p);
      cmd := Back(cmd);
    }
    found, p := Peek(s, p, ";");
    SymbolChars(s, p);
    if found {
      tok, p := GetToken(s, p);
      r := ParseLine(s, p);
      if r.Ok? {
        r := Ok(List(cmd, r.cmd), r.pos);
      }
    } else {
      r := Ok(cmd, p);
    }
  }

  /** parsecmd() before nulterminate(): all of the line must have been used. */
  method ParseAll(s: string) returns (r: Outcome)
    ensures var p := Line(Lex(s, 0));
            && (r.Ok? <==> p.Parsed? && p.rest == [])
            && (r.Ok? ==> r.cmd == p.cmd)
  {
    hide Lex, Line;
    r := ParseLine(s, 0);
    if r.Ok? {
      var found, p := Peek(s, r.pos, "");
      if p != |s| {
        r := Panicked;
      }
    }
  }

  // ---- nulterminate() ----

  function Elements(args: seq<Loc>): set<Loc> { set l | l in args }

  /** The words that a tree points to. */
  function Places(t: Cmd<Loc>): set<Loc>
  {
    match t
    case Exec(args) => Elements(args)
    case Redir(c, _, file) => Places(c) + {file}
    case Pipe(l, r) => Places(l) + Places(r)
    case List(l, r) => Places(l) + Places(r)
    case Back(c) => Places(c)
  }

  /** The end of every word of the tree holds a NUL, and nothing else has changed. */
  ghost predicate Terminated(before: seq<char>, after: seq<char>, places: set<Loc>)
  {
    && |after| == |before|
    && (forall l :: l in places ==> l.to < |after| && after[l.to] == '\0')
    && (forall i :: 0 <= i < |after| && (forall l :: l in places ==> l.to != i) ==> after[i] == before[i])
  }

  lemma TerminatedBoth(a: seq<char>, b: seq<char>, c: seq<char>, p: set<Loc>, q: set<Loc>)
    requires Terminated(a, b, p) && Terminated(b, c, q)
    ensures Terminated(a, c, p + q)
  {
  }

  /** nulterminate(): a NUL after each word, in the buffer that holds the line. */
  method NulTerminate(buf: array<char>, t: Cmd<Loc>)
    requires forall l :: l in Places(t) ==> l.to < buf.Length
    modifies buf
    ensures Terminated(old(buf[..]), buf[..], Places(t))
    decreases t
  {
    match t
    case Exec(args) =>
      var i := 0;
      while i < |args|
        invariant 0 <= i <= |args| && Terminated(old(buf[..]), buf[..], Elements(args[..i]))
      {
        assert args[i] in Places(t);
        ghost var before := buf[..];
        buf[args[i].to] := '\0';
        assert Terminated(before, buf[..], {args[i]});
        TerminatedBoth(old(buf[..]), before, buf[..], Elements(args[..i]), {args[i]});
        assert Elements(args[..i + 1]) == Elements(args[..i]) + {args[i]};
        i := i + 1;
      }
      assert args[..i] == args;
    case Redir(c, _, file) =>
      NulTerminate(buf, c);
      ghost var before := buf[..];
      buf[file.to] := '\0';
      assert Terminated(before, buf[..], {file});
      TerminatedBoth(old(buf[..]), before, buf[..], Places(c), {file});
    case Pipe(l, r) =>
      NulTerminate(buf, l);
      ghost var before := buf[..];
      NulTerminate(buf, r);
      TerminatedBoth(old(buf[..]), before, buf[..], Places(l), Places(r));
    case List(l, r) =>
      NulTerminate(buf, l);
      ghost var before := buf[..];
      NulTerminate(buf, r);
      TerminatedBoth(old(buf[..]), before, buf[..], Places(l), Places(r));
    case Back(c) =>
      NulTerminate(buf, c);
  }

  /** The C string at position from. */
  ghost predicate ReadsAs(buf: seq<char>, from: nat, w: string)
  {
    && from + |w| < |buf| && buf[from..from + |w|] == w && buf[from + |w|] == '\0'
    && forall i :: 0 <= i < |w| ==> w[i] != '\0'
  }

  lemma {:induction false} PlacesOk(ok: Loc -> bool, t: Cmd<Loc>)
    requires AllCmd(ok, t)
    ensures forall l :: l in Places(t) ==> ok(l)
  {
    match t
    case Exec(args) =>
    case Redir(c, _, _) => PlacesOk(ok, c);
    case Pipe(l, r) => PlacesOk(ok, l); PlacesOk(ok, r);
    case List(l, r) => PlacesOk(ok, l); PlacesOk(ok, r);
    case Back(c) => PlacesOk(ok, c);
  }

  /** The words of a parsed tree are whole words of the line. */
  lemma ParsedPlaces(s: string)
    requires Line(Lex(s, 0)).Parsed?
    ensures forall l :: l in Places(Line(Lex(s, 0)).cmd) ==> WordOk(s, l)
  {
    hide Lex, Line;
    var ts := Lex(s, 0);
    var ok := (l: Loc) => WordOk(s, l);
    forall k | 0 <= k < |ts| && ts[k].Word?
      ensures ok(ts[k].w)
    {
      LexWords(s, 0, k);
    }
    FromLine(ok, ts);
    PlacesOk(ok, Line(ts).cmd);
  }

  /** After nulterminate(), each argument and file name reads as exactly its token. */
  lemma WordsRead(s: string, buf: seq<char>, t: Cmd<Loc>, l: Loc)
    requires '\0' !in s && Terminated(s + ['\0'], buf, Places(t)) && l in Places(t)
    requires forall m :: m in Places(t) ==> WordOk(s, m)
    ensures ReadsAs(buf, l.from, Text(s, l))
  {
    assert WordOk(s, l);
    var w := Text(s, l);
    forall i | 0 <= i < |w|
      ensures buf[l.from + i] == w[i] && w[i] != '\0'
    {
      forall m | m in Places(t)
        ensures m.to != l.from + i
      {
        assert WordOk(s, m);
      }
      assert w[i] == s[l.from + i] && w[i] in s;
    }
    assert buf[l.from..l.from + |w|] == w;
  }

  /** parsecmd(), on the buffer that holds the line and its NUL: the tree is the one the grammar gives, and
      its words have become strings of their own. On a syntax error the buffer is as it was. */
  method ParseCmd(buf: array<char>) returns (r: Outcome)
    requires buf.Length > 0 && buf[buf.Length - 1] == '\0' && '\0' !in buf[..buf.Length - 1]
    modifies buf
    ensures var s := old(buf[..buf.Length - 1]); var p := Line(Lex(s, 0));
            && (r.Ok? <==> p.Parsed? && p.rest == [])
            && (r.Ok? ==> r.cmd == p.cmd && forall l :: l in Places(r.cmd) ==> ReadsAs(buf[..], l.from, Text(s, l)))
            && (!r.Ok? ==> buf[..] == old(buf[..]))
  {
    hide Lex, Line, Places;
    var s := buf[..buf.Length - 1];
    assert buf[..] == s + ['\0'];
    r := ParseAll(s);
    if r.Ok? {
      ParsedPlaces(s);
      NulTerminate(buf, r.cmd);
      forall l | l in Places(r.cmd)
        ensures ReadsAs(buf[..], l.from, Text(s, l))
      {
        WordsRead(s, buf[..], r.cmd, l);
      }
    }
  }
}

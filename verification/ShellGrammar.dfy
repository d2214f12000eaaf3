/** The shell's command language on tokens (user/sh.c): what the parser computes, and how trees are
    written down. W is what a word is: a string, or a place in the input. */
module ShellGrammar {

  datatype Tok<W> = Word(w: W) | Less | Greater | Append | Bar | Amp | Semi | Open | Close

  /** The redirections <, > and >>. */
  datatype Kind = Input | Output | Extend

  datatype Cmd<W> =
    | Exec(args: seq<W>)
    | Redir(cmd: Cmd<W>, kind: Kind, file: W)
    | Pipe(left: Cmd<W>, right: Cmd<W>)
    | List(left: Cmd<W>, right: Cmd<W>)
    | Back(cmd: Cmd<W>)

  datatype Parsed<W> = Parsed(cmd: Cmd<W>, rest: seq<Tok<W>>) | Panic

  const MAXARGS := 10

  predicate IsRedir<W>(t: Tok<W>) { t.Less? || t.Greater? || t.Append? }

  function KindOf<W>(t: Tok<W>): Kind
    requires IsRedir(t)
  {
    if t.Less? then Input else if t.Greater? then Output else Extend
  }

  /** Where a simple command ends. */
  predicate Stops<W>(ts: seq<Tok<W>>) { ts == [] || ts[0].Bar? || ts[0].Close? || ts[0].Amp? || ts[0].Semi? }

  // ---- the parser ----

  /** parseredirs() */
  function Redirs<W>(cmd: Cmd<W>, ts: seq<Tok<W>>): (r: Parsed<W>)
    ensures r.Parsed? ==> |r.rest| <= |ts| && (ts == [] || !IsRedir(ts[0]) || |r.rest| < |ts|)
    ensures r.Parsed? ==> r.rest == [] || !IsRedir(r.rest[0])
    decreases |ts|
  {
    if ts == [] || !IsRedir(ts[0]) then Parsed(cmd, ts)
    else if |ts| < 2 || !ts[1].Word? then Panic
    else Redirs(Redir(cmd, KindOf(ts[0]), ts[1].w), ts[2..])
  }

  /** The words of a simple command, whose node fills up while redirections are put around it. */
  function WithArg<W>(cmd: Cmd<W>, w: W): Cmd<W>
  {
    match cmd
    case Exec(args) => Exec(args + [w])
    case Redir(c, kind, file) => Redir(WithArg(c, w), kind, file)
    case _ => cmd
  }

  /** The loop of parseexec(), with argc words so far. */
  function Args<W>(cmd: Cmd<W>, argc: nat, ts: seq<Tok<W>>): (r: Parsed<W>)
    ensures r.Parsed? ==> |r.rest| <= |ts|
    decreases |ts|
  {
    if Stops(ts) then Parsed(cmd, ts)
    else if !ts[0].Word? then Panic
    else if argc + 1 >= MAXARGS then Panic
    else
      var r := Redirs(WithArg(cmd, ts[0].w), ts[1..]);
      if r.Panic? then Panic else Args(r.cmd, argc + 1, r.rest)
  }

  /** parseexec() */
  function Simple<W>(ts: seq<Tok<W>>): (r: Parsed<W>)
    ensures r.Parsed? ==> |r.rest| <= |ts|
    decreases |ts|, 0
  {
    if ts != [] && ts[0].Open? then Block(ts)
    else
      var r := Redirs(Exec([]), ts);
      if r.Panic? then Panic else Args(r.cmd, 0, r.rest)
  }

  /** parseblock() */
  function Block<W>(ts: seq<Tok<W>>): (r: Parsed<W>)
    requires ts != [] && ts[0].Open?
    ensures r.Parsed? ==> |r.rest| < |ts|
    decreases |ts|, 0, 0
  {
    var r := Line(ts[1..]);
    if r.Panic? || r.rest == [] || !r.rest[0].Close? then Panic else Redirs(r.cmd, r.rest[1..])
  }

  /** parsepipe() */
  function Pipeline<W>(ts: seq<Tok<W>>): (r: Parsed<W>)
    ensures r.Parsed? ==> |r.rest| <= |ts|
    decreases |ts|, 1
  {
    var l := Simple(ts);
    if l.Panic? || l.rest == [] || !l.rest[0].Bar? then l
    else
      var r := Pipeline(l.rest[1..]);
      if r.Panic? then Panic else Parsed(Pipe(l.cmd, r.cmd), r.rest)
  }

  /** The loop of parseline(). */
  function Backs<W>(cmd: Cmd<W>, ts: seq<Tok<W>>): (r: Parsed<W>)
    ensures r.Parsed? && |r.rest| <= |ts|
    decreases |ts|
  {
    if ts == [] || !ts[0].Amp? then Parsed(cmd, ts) else Backs(Back(cmd), ts[1..])
  }

  /** parseline() */
  function Line<W>(ts: seq<Tok<W>>): (r: Parsed<W>)
    ensures r.Parsed? ==> |r.rest| <= |ts|
    decreases |ts|, 2
  {
    var p := Pipeline(ts);
    if p.Panic? then Panic
    else
      var b := Backs(p.cmd, p.rest);
      if b.rest == [] || !b.rest[0].Semi? then b
      else
        var r := Line(b.rest[1..]);
        if r.Panic? then Panic else Parsed(List(b.cmd, r.cmd), r.rest)
  }

  // ---- writing trees down ----

  function Words<W>(args: seq<W>): (ts: seq<Tok<W>>)
    ensures |ts| == |args| && forall i :: 0 <= i < |args| ==> ts[i] == Word(args[i])
  {
    seq(|args|, i requires 0 <= i < |args| => Word(args[i]))
  }

  function RedirTok<W>(kind: Kind): Tok<W>
  {
    match kind case Input => Less case Output => Greater case Extend => Append
  }

  /** A tree as a line, as a pipeline with & after it, as a pipeline, and as a simple command; what does not
      fit goes into parentheses. */
  function LineToks<W>(t: Cmd<W>): seq<Tok<W>>
    decreases t, 3
  {
    match t
    case List(l, r) => BackToks(l) + [Semi] + LineToks(r)
    case _ => BackToks(t)
  }

  function BackToks<W>(t: Cmd<W>): seq<Tok<W>>
    decreases t, 2
  {
    match t
    case Back(c) => BackToks(c) + [Amp]
    case _ => PipeToks(t)
  }

  function PipeToks<W>(t: Cmd<W>): seq<Tok<W>>
    decreases t, 1
  {
    match t
    case Pipe(l, r) => SimpleToks(l) + [Bar] + PipeToks(r)
    case _ => SimpleToks(t)
  }

  function SimpleToks<W>(t: Cmd<W>): seq<Tok<W>>
    decreases t, 0
  {
    match t
    case Exec(args) => Words(args)
    case Redir(c, kind, file) => SimpleToks(c) + [RedirTok(kind), Word(file)]
    case Pipe(l, r) => [Open] + (SimpleToks(l) + [Bar] + PipeToks(r)) + [Close]
    case List(l, r) => [Open] + (BackToks(l) + [Semi] + LineToks(r)) + [Close]
    case Back(c) => [Open] + (BackToks(c) + [Amp]) + [Close]
  }

  /** Commands have at most nine arguments. */
  predicate Printable<W>(t: Cmd<W>)
  {
    match t
    case Exec(args) => |args| < MAXARGS
    case Redir(c, _, _) => Printable(c)
    case Pipe(l, r) => Printable(l) && Printable(r)
    case List(l, r) => Printable(l) && Printable(r)
    case Back(c) => Printable(c)
  }

  // ---- reading back what was written ----

  function RedirToks<W>(rs: seq<(Kind, W)>): seq<Tok<W>>
  {
    if rs == [] then [] else [RedirTok(rs[0].0), Word(rs[0].1)] + RedirToks(rs[1..])
  }

  function Wrap<W>(cmd: Cmd<W>, rs: seq<(Kind, W)>): Cmd<W>
    decreases |rs|
  {
    if rs == [] then cmd else Wrap(Redir(cmd, rs[0].0, rs[0].1), rs[1..])
  }

  /** A tree without its outermost redirections, and these. */
  function Core<W>(t: Cmd<W>): (c: Cmd<W>)
    ensures c == t || c < t
    ensures !c.Redir?
  {
    if t.Redir? then Core(t.cmd) else t
  }

  function RedirsOf<W>(t: Cmd<W>): seq<(Kind, W)> { if t.Redir? then RedirsOf(t.cmd) + [(t.kind, t.file)] else [] }

  lemma {:induction false} WrapLast<W>(cmd: Cmd<W>, rs: seq<(Kind, W)>, kind: Kind, file: W)
    ensures Wrap(cmd, rs + [(kind, file)]) == Redir(Wrap(cmd, rs), kind, file)
    ensures RedirToks(rs + [(kind, file)]) == RedirToks(rs) + [RedirTok(kind), Word(file)]
    decreases |rs|
  {
    var rs1 := rs + [(kind, file)];
    if rs != [] {
      assert rs1[1..] == rs[1..] + [(kind, file)];
      WrapLast(Redir(cmd, rs[0].0, rs[0].1), rs[1..], kind, file);
    } else {
      assert rs1[1..] == [];
    }
  }

  lemma {:induction false} Unwrapped<W>(t: Cmd<W>)
    ensures Wrap(Core(t), RedirsOf(t)) == t && SimpleToks(t) == SimpleToks(Core(t)) + RedirToks(RedirsOf(t))
  {
    if t.Redir? {
      Unwrapped(t.cmd);
      WrapLast(Core(t), RedirsOf(t.cmd), t.kind, t.file);
      assert SimpleToks(t) == SimpleToks(Core(t)) + (RedirToks(RedirsOf(t.cmd)) + [RedirTok(t.kind), Word(t.file)]);
    }
  }

  lemma {:induction false} ReadRedirs<W>(cmd: Cmd<W>, rs: seq<(Kind, W)>, rest: seq<Tok<W>>)
    requires rest == [] || !IsRedir(rest[0])
    ensures Redirs(cmd, RedirToks(rs) + rest) == Parsed(Wrap(cmd, rs), rest)
    decreases |rs|
  {
    var ts := RedirToks(rs) + rest;
    if rs == [] {
      assert ts == rest;
    } else {
      assert ts[2..] == RedirToks(rs[1..]) + rest;
      ReadRedirs(Redir(cmd, rs[0].0, rs[0].1), rs[1..], rest);
    }
  }

  lemma ArgsStep<W>(cmd: Cmd<W>, argc: nat, w: W, ts: seq<Tok<W>>)
    requires argc + 1 < MAXARGS
    ensures var r := Redirs(WithArg(cmd, w), ts);
            Args(cmd, argc, [Word(w)] + ts) == if r.Panic? then Panic else Args(r.cmd, argc + 1, r.rest)
  {
  }

  lemma ArgsEnd<W>(cmd: Cmd<W>, argc: nat, ts: seq<Tok<W>>)
    requires Stops(ts)
    ensures Args(cmd, argc, ts) == Parsed(cmd, ts)
  {
  }

  lemma {:induction false} ReadArgs<W>(done: seq<W>, args: seq<W>, rs: seq<(Kind, W)>, rest: seq<Tok<W>>)
    requires args != [] && |done + args| < MAXARGS && Stops(rest)
    ensures Args(Exec(done), |done|, Words(args) + RedirToks(rs) + rest) == Parsed(Wrap(Exec(done + args), rs), rest)
    decreases |args|
  {
    hide Args, RedirToks, Wrap;
    var done1 := done + [args[0]];
    var more := Words(args[1..]) + RedirToks(rs) + rest;
    assert Words(args) + RedirToks(rs) + rest == [Word(args[0])] + more;
    ArgsStep(Exec(done), |done|, args[0], more);
    if |args| == 1 {
      assert more == RedirToks(rs) + rest;
      assert done1 == done + args;
      ReadRedirs(Exec(done1), rs, rest);
      ArgsEnd(Wrap(Exec(done1), rs), |done1|, rest);
    } else {
      assert more[0] == Word(args[1]);
      ReadArgs(done1, args[1..], rs, rest);
      assert done1 + args[1..] == done + args;
    }
  }

  lemma {:induction false} ReadSimple<W>(t: Cmd<W>, rest: seq<Tok<W>>)
    requires Printable(t) && Stops(rest)
    ensures Simple(SimpleToks(t) + rest) == Parsed(t, rest)
    decreases t, if t.Exec? || t.Redir? then 0 else 3
  {
    Unwrapped(t);
    PrintableCore(t);
    var core, rs := Core(t), RedirsOf(t);
    if core.Exec? {
      ReadExec(core.args, rs, rest);
      assert SimpleToks(t) + rest == Words(core.args) + RedirToks(rs) + rest;
    } else {
      var after := [Close] + RedirToks(rs) + rest;
      Parens(core);
      assert SimpleToks(t) + rest == [Open] + (LineToks(core) + after);
      ReadLine(core, after);
      ReadBlock(core, rs, rest);
    }
  }

  lemma Parens<W>(t: Cmd<W>)
    requires !t.Exec? && !t.Redir?
    ensures SimpleToks(t) == [Open] + LineToks(t) + [Close]
  {
    if !t.List? {
      assert LineToks(t) == BackToks(t);
      assert t.Pipe? ==> BackToks(t) == PipeToks(t);
    }
  }

  lemma ReadExec<W>(args: seq<W>, rs: seq<(Kind, W)>, rest: seq<Tok<W>>)
    requires |args| < MAXARGS && Stops(rest)
    ensures Simple(Words(args) + RedirToks(rs) + rest) == Parsed(Wrap(Exec(args), rs), rest)
  {
    var ts := Words(args) + RedirToks(rs) + rest;
    if args == [] {
      assert ts == RedirToks(rs) + rest;
      ReadRedirs(Exec([]), rs, rest);
      NoBlock(rs, rest);
    } else {
      assert ts[0] == Word(args[0]);
      ReadArgs([], args, rs, rest);
      assert [] + args == args;
    }
  }

  lemma NoBlock<W>(rs: seq<(Kind, W)>, rest: seq<Tok<W>>)
    requires Stops(rest)
    ensures var ts := RedirToks(rs) + rest; ts == [] || !ts[0].Open?
  {
  }

  lemma ReadBlock<W>(core: Cmd<W>, rs: seq<(Kind, W)>, rest: seq<Tok<W>>)
    requires Stops(rest)
    requires Line(LineToks(core) + ([Close] + RedirToks(rs) + rest)) == Parsed(core, [Close] + RedirToks(rs) + rest)
    ensures Simple([Open] + (LineToks(core) + ([Close] + RedirToks(rs) + rest))) == Parsed(Wrap(core, rs), rest)
  {
    hide LineToks, RedirToks, Wrap, Line, Redirs;
    var after := [Close] + RedirToks(rs) + rest;
    var ts := [Open] + (LineToks(core) + after);
    assert ts[1..] == LineToks(core) + after;
    assert after[1..] == RedirToks(rs) + rest;
    ReadRedirs(core, rs, rest);
  }

  lemma {:induction false} PrintableCore<W>(t: Cmd<W>)
    requires Printable(t)
    ensures Printable(Core(t))
  {
    if t.Redir? { PrintableCore(t.cmd); }
  }

  lemma {:induction false} ReadPipe<W>(t: Cmd<W>, rest: seq<Tok<W>>)
    requires Printable(t) && Stops(rest) && (rest == [] || !rest[0].Bar?)
    ensures Pipeline(PipeToks(t) + rest) == Parsed(t, rest)
    decreases t, if t.Exec? || t.Redir? then 1 else if t.Pipe? then 0 else 4
  {
    if t.Pipe? {
      assert PipeToks(t) + rest == SimpleToks(t.left) + ([Bar] + PipeToks(t.right) + rest);
      ReadSimple(t.left, [Bar] + PipeToks(t.right) + rest);
      assert ([Bar] + PipeToks(t.right) + rest)[1..] == PipeToks(t.right) + rest;
      ReadPipe(t.right, rest);
    } else {
      ReadSimple(t, rest);
    }
  }

  // ---- & and ; ----

  function Unback<W>(t: Cmd<W>): (c: Cmd<W>)
    ensures c == t || c < t
    ensures !c.Back?
  {
    if t.Back? then Unback(t.cmd) else t
  }

  function BackCount<W>(t: Cmd<W>): nat { if t.Back? then BackCount(t.cmd) + 1 else 0 }

  function Rewrap<W>(c: Cmd<W>, n: nat): Cmd<W> { if n == 0 then c else Back(Rewrap(c, n - 1)) }

  function Amps<W>(n: nat): seq<Tok<W>> { if n == 0 then [] else [Amp] + Amps(n - 1) }

  lemma {:induction false} AmpsLast<W>(n: nat)
    ensures Amps<W>(n) + [Amp] == [Amp] + Amps<W>(n)
  {
    if n > 0 {
      AmpsLast<W>(n - 1);
      assert Amps<W>(n) + [Amp] == [Amp] + (Amps<W>(n - 1) + [Amp]);
    }
  }

  lemma {:induction false} Unbacked<W>(t: Cmd<W>)
    ensures BackToks(t) == PipeToks(Unback(t)) + Amps(BackCount(t)) && Rewrap(Unback(t), BackCount(t)) == t
  {
    if t.Back? {
      Unbacked(t.cmd);
      AmpsLast<W>(BackCount(t.cmd));
      assert BackToks(t) == PipeToks(Unback(t)) + (Amps(BackCount(t.cmd)) + [Amp]);
    } else {
      assert PipeToks(t) + [] == PipeToks(t);
    }
  }

  lemma {:induction false} RewrapInner<W>(c: Cmd<W>, n: nat)
    ensures Rewrap(Back(c), n) == Back(Rewrap(c, n))
  {
    if n > 0 { RewrapInner(c, n - 1); }
  }

  lemma {:induction false} ReadBacks<W>(c: Cmd<W>, n: nat, rest: seq<Tok<W>>)
    requires rest == [] || !rest[0].Amp?
    ensures Backs(c, Amps(n) + rest) == Parsed(Rewrap(c, n), rest)
    decreases n
  {
    if n == 0 {
      assert Amps(n) + rest == rest;
    } else {
      assert (Amps(n) + rest)[1..] == Amps(n - 1) + rest;
      ReadBacks(Back(c), n - 1, rest);
      RewrapInner(c, n - 1);
    }
  }

  lemma {:induction false} PrintableUnback<W>(t: Cmd<W>)
    requires Printable(t)
    ensures Printable(Unback(t))
  {
    if t.Back? { PrintableUnback(t.cmd); }
  }

  /** A pipeline with & after it, and then something else. */
  lemma {:induction false} ReadBack<W>(t: Cmd<W>, rest: seq<Tok<W>>)
    requires Printable(t) && (rest == [] || rest[0].Semi? || rest[0].Close?)
    ensures var p := Pipeline(BackToks(t) + rest); p.Parsed? && Backs(p.cmd, p.rest) == Parsed(t, rest)
    decreases t, if t.Back? || t.Pipe? then 1 else 5
  {
    Unbacked(t);
    PrintableUnback(t);
    var c, n := Unback(t), BackCount(t);
    assert BackToks(t) + rest == PipeToks(c) + (Amps(n) + rest);
    ReadPipe(c, Amps(n) + rest);
    ReadBacks(c, n, rest);
  }

  lemma {:induction false} ReadLine<W>(t: Cmd<W>, rest: seq<Tok<W>>)
    requires Printable(t) && (rest == [] || rest[0].Close?)
    ensures Line(LineToks(t) + rest) == Parsed(t, rest)
    decreases t, if t.List? || t.Back? || t.Pipe? then 2 else 6
  {
    if t.List? {
      var ts := [Semi] + LineToks(t.right) + rest;
      assert LineToks(t) + rest == BackToks(t.left) + ts;
      ReadBack(t.left, ts);
      assert ts[1..] == LineToks(t.right) + rest;
      ReadLine(t.right, rest);
    } else {
      ReadBack(t, rest);
    }
  }

  // ---- parsing does not look at words ----

  function MapTok<V, W>(f: V -> W, t: Tok<V>): Tok<W>
  {
    match t
    case Word(w) => Word(f(w))
    case Less => Less case Greater => Greater case Append => Append
    case Bar => Bar case Amp => Amp case Semi => Semi case Open => Open case Close => Close
  }

  function MapToks<V, W>(f: V -> W, ts: seq<Tok<V>>): (r: seq<Tok<W>>)
    ensures |r| == |ts| && forall i :: 0 <= i < |ts| ==> r[i] == MapTok(f, ts[i])
  {
    seq(|ts|, i requires 0 <= i < |ts| => MapTok(f, ts[i]))
  }

  function MapArgs<V, W>(f: V -> W, args: seq<V>): (r: seq<W>)
    ensures |r| == |args| && forall i :: 0 <= i < |args| ==> r[i] == f(args[i])
  {
    seq(|args|, i requires 0 <= i < |args| => f(args[i]))
  }

  function MapCmd<V, W>(f: V -> W, t: Cmd<V>): Cmd<W>
  {
    match t
    case Exec(args) => Exec(MapArgs(f, args))
    case Redir(c, kind, file) => Redir(MapCmd(f, c), kind, f(file))
    case Pipe(l, r) => Pipe(MapCmd(f, l), MapCmd(f, r))
    case List(l, r) => List(MapCmd(f, l), MapCmd(f, r))
    case Back(c) => Back(MapCmd(f, c))
  }

  function MapParsed<V, W>(f: V -> W, p: Parsed<V>): Parsed<W>
  {
    if p.Panic? then Panic else Parsed(MapCmd(f, p.cmd), MapToks(f, p.rest))
  }

  lemma MapDrop<V, W>(f: V -> W, ts: seq<Tok<V>>, n: nat)
    requires n <= |ts|
    ensures MapToks(f, ts)[n..] == MapToks(f, ts[n..])
  {
  }

  lemma {:induction false} MapRedirs<V, W>(f: V -> W, cmd: Cmd<V>, ts: seq<Tok<V>>)
    ensures Redirs(MapCmd(f, cmd), MapToks(f, ts)) == MapParsed(f, Redirs(cmd, ts))
    decreases |ts|
  {
    if ts != [] && IsRedir(ts[0]) && |ts| >= 2 && ts[1].Word? {
      MapRedirs(f, Redir(cmd, KindOf(ts[0]), ts[1].w), ts[2..]);
      MapDrop(f, ts, 2);
    }
  }

  lemma {:induction false} MapWithArg<V, W>(f: V -> W, cmd: Cmd<V>, w: V)
    ensures MapCmd(f, WithArg(cmd, w)) == WithArg(MapCmd(f, cmd), f(w))
  {
    match cmd
    case Exec(args) => assert MapArgs(f, args + [w]) == MapArgs(f, args) + [f(w)];
    case Redir(c, _, _) => MapWithArg(f, c, w);
    case _ =>
  }

  lemma {:induction false} MapArgsLoop<V, W>(f: V -> W, cmd: Cmd<V>, argc: nat, ts: seq<Tok<V>>)
    ensures Args(MapCmd(f, cmd), argc, MapToks(f, ts)) == MapParsed(f, Args(cmd, argc, ts))
    decreases |ts|
  {
    hide Redirs, WithArg, MapCmd;
    if !Stops(ts) && ts[0].Word? && argc + 1 < MAXARGS {
      MapArgsStep(f, cmd, argc, ts);
      var r := Redirs(WithArg(cmd, ts[0].w), ts[1..]);
      if r.Parsed? {
        MapArgsLoop(f, r.cmd, argc + 1, r.rest);
      }
    }
  }

  lemma MapArgsStep<V, W>(f: V -> W, cmd: Cmd<V>, argc: nat, ts: seq<Tok<V>>)
    requires !Stops(ts) && ts[0].Word? && argc + 1 < MAXARGS
    ensures var r := MapParsed(f, Redirs(WithArg(cmd, ts[0].w), ts[1..]));
            Args(MapCmd(f, cmd), argc, MapToks(f, ts)) == if r.Panic? then Panic else Args(r.cmd, argc + 1, r.rest)
  {
    hide Args, Redirs;
    MapWithArg(f, cmd, ts[0].w);
    MapRedirs(f, WithArg(cmd, ts[0].w), ts[1..]);
    assert MapToks(f, ts) == [Word(f(ts[0].w))] + MapToks(f, ts[1..]);
    ArgsStep(MapCmd(f, cmd), argc, f(ts[0].w), MapToks(f, ts[1..]));
  }

  lemma {:induction false} MapSimple<V, W>(f: V -> W, ts: seq<Tok<V>>)
    ensures Simple(MapToks(f, ts)) == MapParsed(f, Simple(ts))
    decreases |ts|, 0
  {
    if ts != [] && ts[0].Open? {
      MapDrop(f, ts, 1);
      MapLine(f, ts[1..]);
      var r := Line(ts[1..]);
      if r.Parsed? && r.rest != [] && r.rest[0].Close? {
        MapDrop(f, r.rest, 1);
        MapRedirs(f, r.cmd, r.rest[1..]);
      }
    } else {
      assert MapCmd(f, Exec([])) == Exec([]);
      MapRedirs(f, Exec([]), ts);
      var r := Redirs(Exec([]), ts);
      if r.Parsed? {
        MapArgsLoop(f, r.cmd, 0, r.rest);
      }
    }
  }

  lemma {:induction false} MapPipeline<V, W>(f: V -> W, ts: seq<Tok<V>>)
    ensures Pipeline(MapToks(f, ts)) == MapParsed(f, Pipeline(ts))
    decreases |ts|, 1
  {
    MapSimple(f, ts);
    var l := Simple(ts);
    if l.Parsed? && l.rest != [] && l.rest[0].Bar? {
      MapDrop(f, l.rest, 1);
      MapPipeline(f, l.rest[1..]);
    }
  }

  lemma {:induction false} MapBacks<V, W>(f: V -> W, cmd: Cmd<V>, ts: seq<Tok<V>>)
    ensures Backs(MapCmd(f, cmd), MapToks(f, ts)) == MapParsed(f, Backs(cmd, ts))
    decreases |ts|
  {
    if ts != [] && ts[0].Amp? {
      MapDrop(f, ts, 1);
      MapBacks(f, Back(cmd), ts[1..]);
    }
  }

  /** Parsing commutes with any change of what words are. */
  lemma {:induction false} MapLine<V, W>(f: V -> W, ts: seq<Tok<V>>)
    ensures Line(MapToks(f, ts)) == MapParsed(f, Line(ts))
    decreases |ts|, 2
  {
    MapPipeline(f, ts);
    var p := Pipeline(ts);
    if p.Parsed? {
      MapBacks(f, p.cmd, p.rest);
      var b := Backs(p.cmd, p.rest);
      if b.rest != [] && b.rest[0].Semi? {
        MapDrop(f, b.rest, 1);
        MapLine(f, b.rest[1..]);
      }
    }
  }

  // ---- all words of a tree come from the tokens ----

  predicate AllToks<W>(ok: W -> bool, ts: seq<Tok<W>>) { forall i :: 0 <= i < |ts| && ts[i].Word? ==> ok(ts[i].w) }

  predicate AllCmd<W>(ok: W -> bool, t: Cmd<W>)
  {
    match t
    case Exec(args) => forall i :: 0 <= i < |args| ==> ok(args[i])
    case Redir(c, _, file) => AllCmd(ok, c) && ok(file)
    case Pipe(l, r) => AllCmd(ok, l) && AllCmd(ok, r)
    case List(l, r) => AllCmd(ok, l) && AllCmd(ok, r)
    case Back(c) => AllCmd(ok, c)
  }

  predicate AllParsed<W>(ok: W -> bool, p: Parsed<W>) { p.Panic? || (AllCmd(ok, p.cmd) && AllToks(ok, p.rest)) }

  lemma {:induction false} FromRedirs<W>(ok: W -> bool, cmd: Cmd<W>, ts: seq<Tok<W>>)
    requires AllCmd(ok, cmd) && AllToks(ok, ts)
    ensures AllParsed(ok, Redirs(cmd, ts))
    decreases |ts|
  {
    if ts != [] && IsRedir(ts[0]) && |ts| >= 2 && ts[1].Word? {
      FromRedirs(ok, Redir(cmd, KindOf(ts[0]), ts[1].w), ts[2..]);
    }
  }

  lemma {:induction false} FromWithArg<W>(ok: W -> bool, cmd: Cmd<W>, w: W)
    requires AllCmd(ok, cmd) && ok(w)
    ensures AllCmd(ok, WithArg(cmd, w))
  {
    if cmd.Redir? { FromWithArg(ok, cmd.cmd, w); }
  }

  lemma {:induction false} FromArgs<W>(ok: W -> bool, cmd: Cmd<W>, argc: nat, ts: seq<Tok<W>>)
    requires AllCmd(ok, cmd) && AllToks(ok, ts)
    ensures AllParsed(ok, Args(cmd, argc, ts))
    decreases |ts|
  {
    hide Redirs, AllCmd;
    if !Stops(ts) && ts[0].Word? && argc + 1 < MAXARGS {
      FromWithArg(ok, cmd, ts[0].w);
      FromRedirs(ok, WithArg(cmd, ts[0].w), ts[1..]);
      var r := Redirs(WithArg(cmd, ts[0].w), ts[1..]);
      if r.Parsed? {
        FromArgs(ok, r.cmd, argc + 1, r.rest);
      }
    }
  }

  lemma {:induction false} FromSimple<W>(ok: W -> bool, ts: seq<Tok<W>>)
    requires AllToks(ok, ts)
    ensures AllParsed(ok, Simple(ts))
    decreases |ts|, 0
  {
    hide Redirs;
    if ts != [] && ts[0].Open? {
      FromLine(ok, ts[1..]);
      var r := Line(ts[1..]);
      if r.Parsed? && r.rest != [] && r.rest[0].Close? {
        FromRedirs(ok, r.cmd, r.rest[1..]);
      }
    } else {
      FromRedirs(ok, Exec([]), ts);
      var r := Redirs(Exec([]), ts);
      if r.Parsed? {
        FromArgs(ok, r.cmd, 0, r.rest);
      }
    }
  }

  lemma {:induction false} FromPipeline<W>(ok: W -> bool, ts: seq<Tok<W>>)
    requires AllToks(ok, ts)
    ensures AllParsed(ok, Pipeline(ts))
    decreases |ts|, 1
  {
    FromSimple(ok, ts);
    var l := Simple(ts);
    if l.Parsed? && l.rest != [] && l.rest[0].Bar? {
      FromPipeline(ok, l.rest[1..]);
    }
  }

  lemma {:induction false} FromBacks<W>(ok: W -> bool, cmd: Cmd<W>, ts: seq<Tok<W>>)
    requires AllCmd(ok, cmd) && AllToks(ok, ts)
    ensures AllParsed(ok, Backs(cmd, ts))
    decreases |ts|
  {
    if ts != [] && ts[0].Amp? {
      FromBacks(ok, Back(cmd), ts[1..]);
    }
  }

  lemma {:induction false} FromLine<W>(ok: W -> bool, ts: seq<Tok<W>>)
    requires AllToks(ok, ts)
    ensures AllParsed(ok, Line(ts))
    decreases |ts|, 2
  {
    FromPipeline(ok, ts);
    var p := Pipeline(ts);
    if p.Parsed? {
      FromBacks(ok, p.cmd, p.rest);
      var b := Backs(p.cmd, p.rest);
      if b.rest != [] && b.rest[0].Semi? {
        FromLine(ok, b.rest[1..]);
      }
    }
  }
}

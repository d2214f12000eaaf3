/** How the shell divides a line into tokens (user/sh.c: gettoken, peek). */
module ShellLex {
  import opened ShellGrammar

  /** A word's place in the input. */
  datatype Loc = Loc(from: nat, to: nat)

  predicate IsSpace(c: char) { c == ' ' || c == '\t' || c == '\r' || c == '\n' || c == '\U{0b}' }

  predicate IsSymbol(c: char) { c == '<' || c == '|' || c == '>' || c == '&' || c == ';' || c == '(' || c == ')' }

  /** What words are made of. */
  predicate InWord(c: char) { !IsSpace(c) && !IsSymbol(c) }

  /** The first position from pos on that is not white space. */
  function SkipSpace(s: string, pos: nat): (p: nat)
    requires pos <= |s|
    ensures pos <= p <= |s| && (p < |s| ==> !IsSpace(s[p])) && forall i :: pos <= i < p ==> IsSpace(s[i])
    decreases |s| - pos
  {
    if pos < |s| && IsSpace(s[pos]) then SkipSpace(s, pos + 1) else pos
  }

  /** The end of the word at pos. */
  function WordEnd(s: string, pos: nat): (p: nat)
    requires pos <= |s|
    ensures pos <= p <= |s| && (p < |s| ==> !InWord(s[p])) && forall i :: pos <= i < p ==> InWord(s[i])
    decreases |s| - pos
  {
    if pos < |s| && InWord(s[pos]) then WordEnd(s, pos + 1) else pos
  }

  /** The token at pos and the position after it. */
  function TokAt(s: string, pos: nat): (r: (Tok<Loc>, nat))
    requires pos < |s| && !IsSpace(s[pos])
    ensures pos < r.1 <= |s|
  {
    match s[pos]
    case '|' => (Bar, pos + 1)
    case '(' => (Open, pos + 1)
    case ')' => (Close, pos + 1)
    case ';' => (Semi, pos + 1)
    case '&' => (Amp, pos + 1)
    case '<' => (Less, pos + 1)
    case '>' => if pos + 1 < |s| && s[pos + 1] == '>' then (Append, pos + 2) else (Greater, pos + 1)
    case _ => assert InWord(s[pos]); (Word(Loc(pos, WordEnd(s, pos))), WordEnd(s, pos))
  }

  /** The tokens from pos on. */
  function Lex(s: string, pos: nat): seq<Tok<Loc>>
    requires pos <= |s|
    decreases |s| - pos
  {
    var p := SkipSpace(s, pos);
    if p == |s| then [] else [TokAt(s, p).0] + Lex(s, TokAt(s, p).1)
  }

  lemma SkipTwice(s: string, pos: nat)
    requires pos <= |s|
    ensures SkipSpace(s, SkipSpace(s, pos)) == SkipSpace(s, pos) && Lex(s, SkipSpace(s, pos)) == Lex(s, pos)
  {
  }

  /** A place that is a whole word of the input. */
  predicate WordOk(s: string, l: Loc)
  {
    l.from < l.to <= |s| && (forall i :: l.from <= i < l.to ==> InWord(s[i])) && (l.to < |s| ==> !InWord(s[l.to]))
  }

  lemma {:induction false} LexWords(s: string, pos: nat, k: nat)
    requires pos <= |s| && k < |Lex(s, pos)| && Lex(s, pos)[k].Word?
    ensures WordOk(s, Lex(s, pos)[k].w)
    decreases |s| - pos
  {
    var p := SkipSpace(s, pos);
    if k > 0 {
      LexWords(s, TokAt(s, p).1, k - 1);
    }
  }

  // ---- text to tokens and back ----

  function Text(s: string, l: Loc): string
  {
    if l.from <= l.to <= |s| then s[l.from..l.to] else ""
  }

  function Texts(s: string): Loc -> string { (l: Loc) => Text(s, l) }

  predicate Legal(w: string) { w != [] && forall i :: 0 <= i < |w| ==> InWord(w[i]) }

  function TokText(t: Tok<string>): string
  {
    match t
    case Word(w) => w
    case Less => "<" case Greater => ">" case Append => ">>"
    case Bar => "|" case Amp => "&" case Semi => ";" case Open => "(" case Close => ")"
  }

  /** Tokens as text, with a space after each. */
  function Render(ts: seq<Tok<string>>): string
  {
    if ts == [] then "" else TokText(ts[0]) + " " + Render(ts[1..])
  }

  lemma ReadTok(s: string, pos: nat, t: Tok<string>)
    requires (t.Word? ==> Legal(t.w)) && pos + |TokText(t)| < |s|
    requires s[pos..pos + |TokText(t)|] == TokText(t) && s[pos + |TokText(t)|] == ' '
    ensures !IsSpace(s[pos]) && TokAt(s, pos).1 == pos + |TokText(t)|
    ensures MapTok(Texts(s), TokAt(s, pos).0) == t
  {
    var text := TokText(t);
    forall i | 0 <= i < |text|
      ensures s[pos + i] == text[i]
    {
      assert s[pos..pos + |text|][i] == text[i];
    }
    if t.Word? {
      WordEnds(s, pos, pos + |text|);
      WordEnds(s, pos + 1, pos + |text|);
    }
  }

  lemma {:induction false} WordEnds(s: string, pos: nat, end: nat)
    requires pos <= end < |s| && (forall i :: pos <= i < end ==> InWord(s[i])) && !InWord(s[end])
    ensures WordEnd(s, pos) == end
    decreases end - pos
  {
  }

  /** Rendered tokens are read as these tokens. */
  lemma {:induction false} LexRender(before: string, ts: seq<Tok<string>>)
    requires forall t :: t in ts && t.Word? ==> Legal(t.w)
    ensures var s := before + Render(ts); MapToks(Texts(s), Lex(s, |before|)) == ts
    decreases |ts|
  {
    hide Lex, TokAt, Texts, Render, TokText, Legal;
    var s := before + Render(ts);
    if ts == [] {
      RenderNone(before);
      LexEnd(s);
    } else {
      var text := TokText(ts[0]);
      var before1 := before + text + " ";
      RenderParts(before, ts);
      ReadTok(s, |before|, ts[0]);
      LexRender(before1, ts[1..]);
      SpaceBefore(s, |before| + |text|);
      LexStep(s, |before|);
      MapCons(Texts(s), TokAt(s, |before|).0, Lex(s, |before1|));
    }
  }

  lemma RenderNone(before: string)
    ensures before + Render([]) == before
  {
  }

  lemma RenderParts(before: string, ts: seq<Tok<string>>)
    requires ts != []
    ensures var s, text := before + Render(ts), TokText(ts[0]);
            && s == before + text + " " + Render(ts[1..]) && |before| + |text| < |s|
            && s[|before|..|before| + |text|] == text && s[|before| + |text|] == ' '
  {
    hide TokText;
    ThreeParts(before, TokText(ts[0]), Render(ts[1..]));
  }

  lemma ThreeParts(before: string, text: string, tail: string)
    ensures var s := before + (text + " " + tail);
            && s == before + text + " " + tail && s[|before|..|before| + |text|] == text && s[|before| + |text|] == ' '
  {
  }

  lemma LexEnd(s: string)
    ensures Lex(s, |s|) == []
  {
  }

  lemma LexStep(s: string, pos: nat)
    requires pos < |s| && !IsSpace(s[pos])
    ensures Lex(s, pos) == [TokAt(s, pos).0] + Lex(s, TokAt(s, pos).1)
  {
  }

  lemma MapCons<V, W>(f: V -> W, t: Tok<V>, ts: seq<Tok<V>>)
    ensures MapToks(f, [t] + ts) == [MapTok(f, t)] + MapToks(f, ts)
  {
  }

  lemma SpaceBefore(s: string, pos: nat)
    requires pos < |s| && IsSpace(s[pos])
    ensures Lex(s, pos) == Lex(s, pos + 1)
  {
  }

  /** All words of a tree are legal. */
  predicate LegalCmd(t: Cmd<string>)
  {
    match t
    case Exec(args) => forall w :: w in args ==> Legal(w)
    case Redir(c, _, file) => LegalCmd(c) && Legal(file)
    case Pipe(l, r) => LegalCmd(l) && LegalCmd(r)
    case List(l, r) => LegalCmd(l) && LegalCmd(r)
    case Back(c) => LegalCmd(c)
  }

  predicate LegalToks(ts: seq<Tok<string>>) { forall t :: t in ts && t.Word? ==> Legal(t.w) }

  lemma {:induction false} LegalSimple(t: Cmd<string>)
    requires LegalCmd(t)
    ensures LegalToks(SimpleToks(t)) && LegalToks(PipeToks(t)) && LegalToks(BackToks(t)) && LegalToks(LineToks(t))
  {
    match t
    case Exec(args) =>
    case Redir(c, _, _) => LegalSimple(c);
    case Pipe(l, r) => LegalSimple(l); LegalSimple(r);
    case List(l, r) => LegalSimple(l); LegalSimple(r);
    case Back(c) => LegalSimple(c);
  }

  /** Every tree of commands with legal words and at most nine arguments each, written down with
      parentheses where needed, is parsed back to the same tree, and nothing is left over. */
  lemma RoundTrip(t: Cmd<string>)
    requires Printable(t) && LegalCmd(t)
    ensures var s := Render(LineToks(t)); var p := Line(Lex(s, 0));
            p.Parsed? && p.rest == [] && MapCmd(Texts(s), p.cmd) == t
  {
    var ts := LineToks(t);
    var s := Render(ts);
    var f := Texts(s);
    LegalSimple(t);
    LexRender("", ts);
    assert "" + Render(ts) == s;
    assert MapToks(f, Lex(s, 0)) == ts;
    MapLine(f, Lex(s, 0));
    ReadLine(t, []);
    assert ts + [] == ts;
  }
}

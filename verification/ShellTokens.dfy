/** The parser sees a text only through its tokens: blanks, and which of '>' and '>>' is
    written, make no difference. */
module ShellTokens {
  import opened ShellSpec
  import opened ShellPrint

  /** A word, or a symbol, with '>>' read as '>'. */
  datatype Tok = Word(w: string) | Mark(c: char)

  function TokOf(text: string, t: Token): Tok {
    if t.kind == 'a' then Word(ShellSpec.Word(text, t.span)) else Mark(if t.kind == '+' then '>' else t.kind)
  }

  /** The tokens from a position on. */
  function Tokens(text: string, p: nat): seq<Tok>
    requires p <= |text|
    decreases |text| - p
  {
    var t := GetToken(text, p);
    if t.kind == '\0' || t.next <= p then [] else [TokOf(text, t)] + Tokens(text, t.next)
  }

  lemma TokensSkip(text: string, p: nat)
    requires p <= |text|
    ensures Tokens(text, Skip(text, p)) == Tokens(text, p)
    ensures GetToken(text, Skip(text, p)) == GetToken(text, p)
    ensures Skip(text, Skip(text, p)) == Skip(text, p)
  {
    TokenSkip(text, p);
    hide GetToken;
  }

  lemma TokenSkip(text: string, p: nat)
    requires p <= |text|
    ensures Skip(text, Skip(text, p)) == Skip(text, p) && GetToken(text, Skip(text, p)) == GetToken(text, p)
    ensures GetToken(text, p).kind != '\0' ==> GetToken(text, p).next > Skip(text, p)
  {
    hide WordSpan;
  }

  /** The character at the cursor says which symbol comes next, if any. */
  lemma NextMark(text: string, p: nat)
    requires p <= |text| && '\0' !in text
    ensures var c := CharAt(text, Skip(text, p));
            var ts := Tokens(text, p);
            && (c == '\0' <==> ts == []) && (c == '\0' <==> Skip(text, p) == |text|)
            && (Symbol(c) <==> ts != [] && ts[0].Mark?) && (Symbol(c) ==> ts[0] == Mark(c))
  {
    var q := Skip(text, p);
    var c := CharAt(text, q);
    if q < |text| {
      assert text[q] in text;
    }
  }

  /** One token is taken off the front. */
  lemma TakeToken(text: string, p: nat)
    requires p <= |text| && '\0' !in text
    ensures var t := GetToken(text, p);
            var ts := Tokens(text, p);
            if t.kind == '\0' then ts == [] && t.next == |text|
            else ts != [] && ts[0] == TokOf(text, t) && Tokens(text, t.next) == ts[1..] && p < t.next
  {
    NextMark(text, p);
  }

  // ---------- the parser on tokens ----------

  /** What a parse function leaves: its value and the tokens behind it, or a panic. */
  datatype Rest<V> = Took(value: V, rest: seq<Tok>) | Fails(fault: Fault)

  predicate StartsWith(ts: seq<Tok>, c: char) {
    ts != [] && ts[0] == Mark(c)
  }

  function TakeRedirs(ts: seq<Tok>, rs: seq<Redirection<string>>): (r: Rest<seq<Redirection<string>>>)
    ensures r.Took? ==> |r.rest| <= |ts|
  {
    if !StartsWith(ts, '<') && !StartsWith(ts, '>') then Took(rs, ts)
    else if |ts| < 2 || ts[1].Mark? then Fails(MissingFile)
    else TakeRedirs(ts[2..], rs + [Redirection(ts[1].w, if ts[0].c == '<' then Input else Output)])
  }

  function TakeArgs(ts: seq<Tok>, argv: seq<string>, rs: seq<Redirection<string>>): (r: Rest<Cmd<string>>)
    ensures r.Took? ==> |r.rest| <= |ts|
    decreases |ts|
  {
    if ts == [] || (ts[0].Mark? && ExecStop(ts[0].c)) then Took(Wrap(Exec(argv), rs), ts)
    else if ts[0].Mark? then Fails(Syntax)
    else if |argv| + 1 >= MAXARGS then Fails(TooManyArgs)
    else
      match TakeRedirs(ts[1..], rs)
      case Fails(f) => Fails(f)
      case Took(rs', rest) => TakeArgs(rest, argv + [ts[0].w], rs')
  }

  function TakeExec(ts: seq<Tok>): (r: Rest<Cmd<string>>)
    ensures r.Took? ==> |r.rest| <= |ts|
    decreases |ts|, 1
  {
    if StartsWith(ts, '(') then TakeBlock(ts)
    else
      match TakeRedirs(ts, [])
      case Fails(f) => Fails(f)
      case Took(rs, rest) => TakeArgs(rest, [], rs)
  }

  function TakeBlock(ts: seq<Tok>): (r: Rest<Cmd<string>>)
    requires StartsWith(ts, '(')
    ensures r.Took? ==> |r.rest| <= |ts|
    decreases |ts|, 0
  {
    match TakeLine(ts[1..])
    case Fails(f) => Fails(f)
    case Took(c, rest) =>
      if !StartsWith(rest, ')') then Fails(MissingParen)
      else
        match TakeRedirs(rest[1..], [])
        case Fails(f) => Fails(f)
        case Took(rs, rest') => Took(Wrap(c, rs), rest')
  }

  function TakePipe(ts: seq<Tok>): (r: Rest<Cmd<string>>)
    ensures r.Took? ==> |r.rest| <= |ts|
    decreases |ts|, 2
  {
    match TakeExec(ts)
    case Fails(f) => Fails(f)
    case Took(l, rest) =>
      if !StartsWith(rest, '|') then Took(l, rest)
      else
        match TakePipe(rest[1..])
        case Fails(f) => Fails(f)
        case Took(right, rest') => Took(Pipe(l, right), rest')
  }

  function TakeBacks(ts: seq<Tok>, c: Cmd<string>): (r: Rest<Cmd<string>>)
    ensures r.Took? && |r.rest| <= |ts|
  {
    if StartsWith(ts, '&') then TakeBacks(ts[1..], Back(c)) else Took(c, ts)
  }

  function TakeLine(ts: seq<Tok>): (r: Rest<Cmd<string>>)
    ensures r.Took? ==> |r.rest| <= |ts|
    decreases |ts|, 3
  {
    match TakePipe(ts)
    case Fails(f) => Fails(f)
    case Took(c, rest) =>
      var b := TakeBacks(rest, c);
      if !StartsWith(b.rest, ';') then b
      else
        match TakeLine(b.rest[1..])
        case Fails(f) => Fails(f)
        case Took(right, rest') => Took(List(b.value, right), rest')
  }

  // ---------- the parser on the text is that parser ----------

  /** The same panic, or the same tree and the same tokens left. */
  predicate Agree(text: string, r: Parsed<Cmd<Span>>, tr: Rest<Cmd<string>>) {
    if r.Ok? then r.pos <= |text| && tr == Took(Read(text, r.value), Tokens(text, r.pos)) else tr == Fails(r.fault)
  }

  predicate RedirsAgree(text: string, r: Parsed<seq<Redirection<Span>>>, tr: Rest<seq<Redirection<string>>>) {
    if r.Ok? then r.pos <= |text| && tr == Took(ReadRedirs(text, r.value), Tokens(text, r.pos)) else tr == Fails(r.fault)
  }

  lemma RedirTaken(text: string, p: nat)
    requires '\0' !in text && p <= |text| && (StartsWith(Tokens(text, p), '<') || StartsWith(Tokens(text, p), '>'))
    ensures var r, ts := ParseRedir(text, p), Tokens(text, p);
            if r.Ok? then
              && |ts| >= 2 && ts[1].Word? && r.pos <= |text| && Tokens(text, r.pos) == ts[2..]
              && Redirection(ShellSpec.Word(text, r.value.file), r.value.mode) == Redirection(ts[1].w, if ts[0].c == '<' then Input else Output)
            else r == Panic(MissingFile) && (|ts| < 2 || ts[1].Mark?)
  {
    TakeToken(text, p);
    TakeToken(text, GetToken(text, p).next);
    hide GetToken;
    hide Tokens;
    hide WordSpan;
  }

  lemma {:induction false} RedirsTaken(text: string, p: nat, rs: seq<Redirection<Span>>)
    requires '\0' !in text && p <= |text| && FileSpans(text, rs)
    ensures RedirsAgree(text, ParseRedirs(text, p, rs), TakeRedirs(Tokens(text, p), ReadRedirs(text, rs)))
    decreases |text| - p
  {
    hide Tokens;
    hide WordSpan;
    hide Skip;
    TokensSkip(text, p);
    NextMark(text, p);
    var s := Skip(text, p);
    if RedirMark(CharAt(text, s)) {
      RedirTaken(text, s);
      var x := ParseRedir(text, s);
      hide ParseRedir;
      if x.Ok? {
        assert ReadRedirs(text, rs + [x.value]) == ReadRedirs(text, rs) + [Redirection(ShellSpec.Word(text, x.value.file), x.value.mode)];
        RedirsTaken(text, x.pos, rs + [x.value]);
      }
    }
  }

  lemma {:induction false} ArgsTaken(text: string, p: nat, argv: seq<Span>, rs: seq<Redirection<Span>>)
    requires '\0' !in text && p <= |text| && FileSpans(text, rs) && Sound(text, Exec(argv))
    ensures Agree(text, ParseArgs(text, p, argv, rs), TakeArgs(Tokens(text, p), Words(text, argv), ReadRedirs(text, rs)))
    decreases |text| - p
  {
    hide Tokens;
    hide WordSpan;
    hide Skip;
    hide GetToken;
    hide ParseRedirs;
    hide TakeRedirs;
    TokensSkip(text, p);
    NextMark(text, p);
    TakeToken(text, p);
    ReadWrap(text, Exec(argv), rs);
    var t := GetToken(text, p);
    if !ExecStop(CharAt(text, Skip(text, p))) && t.kind == 'a' && |argv| + 1 < MAXARGS {
      RedirsTaken(text, t.next, rs);
      var x := ParseRedirs(text, t.next, rs);
      if x.Ok? {
        assert Words(text, argv + [t.span]) == Words(text, argv) + [ShellSpec.Word(text, t.span)];
        ArgsTaken(text, x.pos, argv + [t.span], x.value);
      }
    }
  }

  lemma ExecTaken(text: string, p: nat)
    requires '\0' !in text && p <= |text|
    ensures Agree(text, ParseExec(text, p), TakeExec(Tokens(text, p)))
    decreases |text| - p, 1
  {
    hide Tokens;
    hide WordSpan;
    hide Skip;
    hide ParseRedirs;
    hide ParseArgs;
    hide ParseBlock;
    hide TakeRedirs;
    hide TakeArgs;
    hide TakeBlock;
    TokensSkip(text, p);
    NextMark(text, p);
    var s := Skip(text, p);
    if CharAt(text, s) == '(' {
      BlockTaken(text, s);
    } else {
      assert ReadRedirs(text, []) == [] && Words(text, []) == [];
      RedirsTaken(text, s, []);
      var x := ParseRedirs(text, s, []);
      if x.Ok? {
        ArgsTaken(text, x.pos, [], x.value);
      }
    }
  }

  lemma BlockTaken(text: string, p: nat)
    requires '\0' !in text && p < |text| && text[p] == '(' && StartsWith(Tokens(text, p), '(')
    ensures Agree(text, ParseBlock(text, p), TakeBlock(Tokens(text, p)))
    decreases |text| - p, 0
  {
    hide Tokens;
    hide WordSpan;
    hide Skip;
    hide GetToken;
    hide ParseRedirs;
    hide ParseLine;
    hide TakeRedirs;
    hide TakeLine;
    TakeToken(text, p);
    NextMark(text, p);
    var q := GetToken(text, p).next;
    LineTaken(text, q);
    var r := ParseLine(text, q);
    if r.Ok? {
      TokensSkip(text, r.pos);
      NextMark(text, r.pos);
      var s := Skip(text, r.pos);
      if CharAt(text, s) == ')' {
        TakeToken(text, s);
        assert ReadRedirs(text, []) == [];
        RedirsTaken(text, GetToken(text, s).next, []);
        var x := ParseRedirs(text, GetToken(text, s).next, []);
        if x.Ok? {
          ReadWrap(text, r.value, x.value);
        }
      }
    }
  }

  lemma PipeTaken(text: string, p: nat)
    requires '\0' !in text && p <= |text|
    ensures Agree(text, ParsePipe(text, p), TakePipe(Tokens(text, p)))
    decreases |text| - p, 2
  {
    hide Tokens;
    hide WordSpan;
    hide Skip;
    hide GetToken;
    hide ParseExec;
    hide TakeExec;
    ExecTaken(text, p);
    var r := ParseExec(text, p);
    if r.Ok? {
      TokensSkip(text, r.pos);
      NextMark(text, r.pos);
      var s := Skip(text, r.pos);
      if CharAt(text, s) == '|' {
        TakeToken(text, s);
        PipeTaken(text, GetToken(text, s).next);
      }
    }
  }

  lemma {:induction false} BacksTaken(text: string, p: nat, c: Cmd<Span>)
    requires '\0' !in text && p <= |text| && Sound(text, c)
    ensures Agree(text, ParseBacks(text, p, c), TakeBacks(Tokens(text, p), Read(text, c)))
    decreases |text| - p
  {
    hide Tokens;
    hide WordSpan;
    hide Skip;
    hide GetToken;
    TokensSkip(text, p);
    NextMark(text, p);
    var s := Skip(text, p);
    if CharAt(text, s) == '&' {
      TakeToken(text, s);
      BacksTaken(text, GetToken(text, s).next, Back(c));
    }
  }

  lemma LineTaken(text: string, p: nat)
    requires '\0' !in text && p <= |text|
    ensures Agree(text, ParseLine(text, p), TakeLine(Tokens(text, p)))
    decreases |text| - p, 3
  {
    hide Tokens;
    hide WordSpan;
    hide Skip;
    hide GetToken;
    hide ParsePipe;
    hide ParseBacks;
    hide TakePipe;
    hide TakeBacks;
    PipeTaken(text, p);
    var r := ParsePipe(text, p);
    if r.Ok? {
      BacksTaken(text, r.pos, r.value);
      var b := ParseBacks(text, r.pos, r.value);
      TokensSkip(text, b.pos);
      NextMark(text, b.pos);
      var s := Skip(text, b.pos);
      if CharAt(text, s) == ';' {
        TakeToken(text, s);
        LineTaken(text, GetToken(text, s).next);
      }
    }
  }

  /** parsecmd on the tokens. */
  function TakeCmd(ts: seq<Tok>): Rest<Cmd<string>> {
    match TakeLine(ts)
    case Fails(f) => Fails(f)
    case Took(c, rest) => if rest == [] then Took(c, []) else Fails(Leftovers)
  }

  lemma CmdTaken(text: string)
    requires '\0' !in text
    ensures var r, tr := ParseCmd(text), TakeCmd(Tokens(text, 0));
            if r.Ok? then tr == Took(Read(text, r.value), []) else tr == Fails(r.fault)
  {
    hide ParseLine;
    hide TakeLine;
    hide Tokens;
    LineTaken(text, 0);
    var r := ParseLine(text, 0);
    if r.Ok? {
      NextMark(text, r.pos);
    }
  }

  /** Texts with the same tokens parse alike. */
  lemma TokensDecide(text: string, text': string)
    requires '\0' !in text && '\0' !in text' && Tokens(text, 0) == Tokens(text', 0)
    ensures var r, r' := ParseCmd(text), ParseCmd(text');
            if r.Ok? then r'.Ok? && Read(text, r.value) == Read(text', r'.value) else r' == r
  {
    hide ParseCmd;
    hide TakeCmd;
    hide Tokens;
    CmdTaken(text);
    CmdTaken(text');
  }

  /** However a legal tree is written, with what blanks and with '>' or '>>', parsecmd gives
      it back, unless a command in it is too long. */
  lemma ParseWritten(text: string, t: Cmd<string>)
    requires '\0' !in text && Legal(t) && Tokens(text, 0) == Tokens(Print(t, 3), 0)
    ensures if Fits(t) then ParseCmd(text).Ok? && Read(text, ParseCmd(text).value) == t else ParseCmd(text) == Panic(TooManyArgs)
  {
    PrintNoNul(t);
    ParsePrinted(t);
    TokensDecide(Print(t, 3), text);
  }
}

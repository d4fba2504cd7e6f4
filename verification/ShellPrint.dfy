/** Printing a command tree, and the proof that the parser undoes it. */
module ShellPrint {
  import opened ShellSpec

  /** Which parse function can return the tree without parentheses: parseexec,
      parsepipe, the '&' loop or parseline. */
  function Level<W>(t: Cmd<W>): nat {
    match t
    case Exec(_) => 0
    case Redir(_, _, _) => 0
    case Pipe(_, _) => 1
    case Back(_) => 2
    case List(_, _) => 3
  }

  /** The tree in text, in parentheses where the parser at `level` would not find it. */
  function Print(t: Cmd<string>, level: nat): string
    decreases t, 1
  {
    if Level(t) <= level then Raw(t) else "( " + (Raw(t) + ") ")
  }

  function Raw(t: Cmd<string>): string
    decreases t, 0
  {
    match t
    case Exec(argv) => PrintWords(argv)
    case Redir(c, file, mode) => Print(c, 0) + PrintRedir(Redirection(file, mode))
    case Pipe(l, r) => Print(l, 0) + ("| " + Print(r, 1))
    case Back(c) => Print(c, 2) + "& "
    case List(l, r) => Print(l, 2) + ("; " + Print(r, 3))
  }

  function PrintWords(argv: seq<string>): string {
    if argv == [] then "" else (argv[0] + " ") + PrintWords(argv[1..])
  }

  function PrintRedir(r: Redirection<string>): string {
    (if r.mode.Input? then "< " else "> ") + (r.file + " ")
  }

  function PrintRedirs(rs: seq<Redirection<string>>): string {
    if rs == [] then "" else PrintRedir(rs[0]) + PrintRedirs(rs[1..])
  }

  predicate LegalWord(w: string) {
    |w| > 0 && forall i :: 0 <= i < |w| ==> WordChar(w[i]) && w[i] != '\0'
  }

  predicate Legal(t: Cmd<string>)
    decreases t
  {
    match t
    case Exec(argv) => forall i :: 0 <= i < |argv| ==> LegalWord(argv[i])
    case Redir(c, file, _) => Legal(c) && LegalWord(file)
    case Pipe(l, r) => Legal(l) && Legal(r)
    case List(l, r) => Legal(l) && Legal(r)
    case Back(c) => Legal(c)
  }

  predicate LegalFiles(rs: seq<Redirection<string>>) {
    forall i :: 0 <= i < |rs| ==> LegalWord(rs[i].file)
  }

  // ---------- a string at a place in the text ----------

  predicate At(text: string, p: nat, s: string, q: nat) {
    p <= q <= |text| && text[p..q] == s
  }

  lemma AtBounds(text: string, p: nat, s: string, q: nat)
    requires At(text, p, s, q)
    ensures p <= q <= |text|
  {
  }

  lemma AtSplit(text: string, p: nat, a: string, b: string, q: nat)
    requires At(text, p, a + b, q)
    ensures At(text, p, a, p + |a|) && At(text, p + |a|, b, q)
  {
    assert text[p..p + |a|] == (a + b)[..|a|] == a;
    assert text[p + |a|..q] == (a + b)[|a|..] == b;
  }

  /** The cursor is not before a blank. */
  predicate Clear(text: string, q: nat) {
    q <= |text| && (q < |text| ==> !Space(text[q]))
  }

  lemma SkipClear(text: string, p: nat)
    requires Clear(text, p)
    ensures Skip(text, p) == p
  {
  }

  lemma SkipBlank(text: string, p: nat)
    requires p < |text| && text[p] == ' ' && Clear(text, p + 1)
    ensures Skip(text, p) == p + 1
  {
  }

  lemma SymbolToken(text: string, p: nat, c: char)
    requires Symbol(c) && At(text, p, [c] + " ", p + 2) && Clear(text, p + 2)
    ensures Skip(text, p) == p && text[p] == c
    ensures GetToken(text, p) == Token(c, Span(p, p + 1), p + 2)
  {
    hide WordEnd;
    hide WordSpan;
    hide Skip;
    assert text[p..p + 2] == [c] + " ";
    assert text[p] == text[p..p + 2][0] == c && text[p + 1] == text[p..p + 2][1] == ' ';
    SkipClear(text, p);
    SkipBlank(text, p + 1);
  }

  lemma WordToken(text: string, p: nat, w: string, q: nat)
    requires LegalWord(w) && At(text, p, w + " ", q) && Clear(text, q)
    ensures Skip(text, p) == p && p < |text| && WordChar(text[p])
    ensures GetToken(text, p) == Token('a', Span(p, p + |w|), q) && Word(text, Span(p, p + |w|)) == w
    ensures WordSpan(text, Span(p, p + |w|))
  {
    var e := p + |w|;
    AtSplit(text, p, w, " ", q);
    assert forall i :: p <= i < e ==> text[i] == text[p..e][i - p];
    assert text[e] == text[e..q][0] == ' ';
    SkipBlank(text, e);
  }

  // ---------- redirections ----------

  function ReadRedirs(text: string, rs: seq<Redirection<Span>>): (r: seq<Redirection<string>>)
    ensures |r| == |rs| && forall i :: 0 <= i < |rs| ==> r[i] == Redirection(Word(text, rs[i].file), rs[i].mode)
  {
    seq(|rs|, i requires 0 <= i < |rs| => Redirection(Word(text, rs[i].file), rs[i].mode))
  }

  lemma {:induction false} ReadWrap(text: string, c: Cmd<Span>, rs: seq<Redirection<Span>>)
    ensures Read(text, Wrap(c, rs)) == Wrap(Read(text, c), ReadRedirs(text, rs))
    decreases |rs|
  {
    if rs == [] {
    } else {
      ReadWrap(text, c, rs[..|rs| - 1]);
      assert ReadRedirs(text, rs)[..|rs| - 1] == ReadRedirs(text, rs[..|rs| - 1]);
    }
  }

  lemma RedirAt(text: string, p: nat, x: Redirection<string>, rest: string, q: nat)
    requires LegalWord(x.file) && At(text, p, PrintRedir(x) + rest, q) && Clear(text, p + |PrintRedir(x)|)
    ensures Skip(text, p) == p && RedirMark(CharAt(text, p)) && At(text, p + |PrintRedir(x)|, rest, q)
    ensures var t := GetToken(text, p); t.kind == (if x.mode.Input? then '<' else '>') && t.next == p + 2
    ensures var f := GetToken(text, p + 2); f.kind == 'a' && f.next == p + |PrintRedir(x)| && Word(text, f.span) == x.file && WordSpan(text, f.span)
  {
    hide GetToken;
    hide Skip;
    hide WordSpan;
    hide LegalWord;
    hide Word;
    hide Space;
    AtSplit(text, p, PrintRedir(x), rest, q);
    var op := if x.mode.Input? then "< " else "> ";
    AtSplit(text, p, op, x.file + " ", p + |PrintRedir(x)|);
    WordToken(text, p + 2, x.file, p + |PrintRedir(x)|);
    assert op == [op[0]] + " ";
    SymbolToken(text, p, op[0]);
  }

  lemma RedirsClear(text: string, p: nat, rs: seq<Redirection<string>>, q: nat)
    requires At(text, p, PrintRedirs(rs), q) && Clear(text, q)
    ensures Clear(text, p)
  {
  }

  lemma RedirsStep(text: string, p: nat, done: seq<Redirection<Span>>, op: char, f: Token)
    requires p + 2 <= |text| && FileSpans(text, done) && Skip(text, p) == p && RedirMark(CharAt(text, p))
    requires GetToken(text, p).kind == op && GetToken(text, p).next == p + 2
    requires f == GetToken(text, p + 2) && f.kind == 'a' && WordSpan(text, f.span)
    ensures ParseRedirs(text, p, done) == ParseRedirs(text, f.next, done + [Redirection(f.span, if op == '<' then Input else Output)])
  {
  }

  predicate RedirsRead(text: string, r: Parsed<seq<Redirection<Span>>>, rs: seq<Redirection<string>>, q: nat) {
    r.Ok? && r.pos == q && ReadRedirs(text, r.value) == rs
  }

  lemma RedirsEnd(text: string, q: nat, done: seq<Redirection<Span>>)
    requires FileSpans(text, done) && Clear(text, q) && !RedirMark(CharAt(text, q))
    ensures ParseRedirs(text, q, done) == Ok(done, q)
  {
  }

  lemma ReadOneMore(text: string, done: seq<Redirection<Span>>, x: Redirection<Span>, rs: seq<Redirection<string>>)
    requires rs != [] && rs[0] == Redirection(Word(text, x.file), x.mode)
    ensures ReadRedirs(text, done + [x]) + rs[1..] == ReadRedirs(text, done) + rs
  {
    hide Word;
    assert ReadRedirs(text, done + [x]) == ReadRedirs(text, done) + [rs[0]];
    assert [rs[0]] + rs[1..] == rs;
  }

  /** The parser takes the first of the printed redirections. */
  lemma FirstRedir(text: string, p: nat, done: seq<Redirection<Span>>, rs: seq<Redirection<string>>, q: nat)
    returns (p': nat, done': seq<Redirection<Span>>)
    requires FileSpans(text, done) && LegalFiles(rs) && rs != []
    requires At(text, p, PrintRedirs(rs), q) && Clear(text, q)
    ensures FileSpans(text, done') && At(text, p', PrintRedirs(rs[1..]), q)
    ensures ParseRedirs(text, p, done) == ParseRedirs(text, p', done')
    ensures ReadRedirs(text, done') + rs[1..] == ReadRedirs(text, done) + rs
  {
    hide GetToken;
    hide PrintRedir;
    hide WordSpan;
    hide Skip;
    hide LegalWord;
    hide Space;
    hide ParseRedirs;
    hide ReadRedirs;
    hide Word;
    var x := rs[0];
    p' := p + |PrintRedir(x)|;
    AtSplit(text, p, PrintRedir(x), PrintRedirs(rs[1..]), q);
    RedirsClear(text, p', rs[1..], q);
    RedirAt(text, p, x, PrintRedirs(rs[1..]), q);
    var f := GetToken(text, p + 2);
    done' := done + [Redirection(f.span, x.mode)];
    RedirsStep(text, p, done, if x.mode.Input? then '<' else '>', f);
    ReadOneMore(text, done, Redirection(f.span, x.mode), rs);
  }

  lemma {:induction false} RedirsPrinted(text: string, p: nat, done: seq<Redirection<Span>>, rs: seq<Redirection<string>>, q: nat)
    requires FileSpans(text, done) && LegalFiles(rs)
    requires At(text, p, PrintRedirs(rs), q) && Clear(text, q) && !RedirMark(CharAt(text, q))
    ensures RedirsRead(text, ParseRedirs(text, p, done), ReadRedirs(text, done) + rs, q)
    decreases |rs|
  {
    hide FileSpans;
    hide ParseRedirs;
    hide ReadRedirs;
    hide Space;
    if rs == [] {
      RedirsEnd(text, q, done);
      assert ReadRedirs(text, done) + rs == ReadRedirs(text, done);
    } else {
      var p', done' := FirstRedir(text, p, done, rs, q);
      RedirsPrinted(text, p', done', rs[1..], q);
    }
  }

  // ---------- simple commands ----------

  /** The parser returns the tree and the place after it; a tree with too long a command
      panics. */
  predicate Reads(text: string, r: Parsed<Cmd<Span>>, t: Cmd<string>, q: nat) {
    if Fits(t) then r.Ok? && r.pos == q && Read(text, r.value) == t else r == Panic(TooManyArgs)
  }

  lemma {:induction false} FitsWrap<W>(c: Cmd<W>, rs: seq<Redirection<W>>)
    ensures Fits(Wrap(c, rs)) <==> Fits(c)
    decreases |rs|
  {
    if rs != [] { FitsWrap(c, rs[..|rs| - 1]); }
  }

  predicate Ends(text: string, q: nat) {
    q <= |text| && (q < |text| ==> ExecStop(text[q]))
  }

  lemma EndsClear(text: string, q: nat)
    requires Ends(text, q)
    ensures Clear(text, q) && !RedirMark(CharAt(text, q))
  {
  }

  lemma ArgsEnd(text: string, q: nat, argv: seq<Span>, rs: seq<Redirection<Span>>)
    requires Sound(text, Exec(argv)) && FileSpans(text, rs) && Ends(text, q)
    ensures ParseArgs(text, q, argv, rs) == Ok(Wrap(Exec(argv), rs), q)
  {
  }

  lemma ArgsStep(text: string, p: nat, argv: seq<Span>, w: string, p': nat, rs: Parsed<seq<Redirection<Span>>>)
    requires Sound(text, Exec(argv)) && LegalWord(w) && At(text, p, w + " ", p') && Clear(text, p')
    requires rs == ParseRedirs(text, p', []) && rs.Ok?
    ensures WordSpan(text, Span(p, p + |w|)) && Word(text, Span(p, p + |w|)) == w
    ensures ParseArgs(text, p, argv, []) ==
            if |argv| + 1 >= MAXARGS then Panic(TooManyArgs) else ParseArgs(text, rs.pos, argv + [Span(p, p + |w|)], rs.value)
  {
    WordToken(text, p, w, p');
    hide GetToken;
    hide Skip;
    hide WordSpan;
    hide LegalWord;
  }

  lemma WordsClear(text: string, p: nat, args: seq<string>, rs: seq<Redirection<string>>, q: nat)
    requires At(text, p, PrintWords(args) + PrintRedirs(rs), q) && Clear(text, q)
    requires forall i :: 0 <= i < |args| ==> LegalWord(args[i])
    ensures Clear(text, p) && (args != [] ==> p < |text| && WordChar(text[p]) && !RedirMark(CharAt(text, p)))
  {
  }

  /** The last argument, with the redirections after it. */
  lemma LastArgPrinted(text: string, p: nat, argv: seq<Span>, w: string, rs: seq<Redirection<string>>, q: nat)
    requires Sound(text, Exec(argv)) && LegalWord(w) && LegalFiles(rs)
    requires At(text, p, (w + " ") + PrintRedirs(rs), q) && Ends(text, q)
    ensures Reads(text, ParseArgs(text, p, argv, []), Wrap(Exec(Words(text, argv) + [w]), rs), q)
  {
    hide LegalWord;
    hide WordSpan;
    hide ParseArgs;
    hide ParseRedirs;
    hide PrintRedirs;
    hide Wrap;
    hide Space;
    hide ReadRedirs;
    hide RedirMark;
    var all := Words(text, argv) + [w];
    FitsWrap(Exec(all), rs);
    var p' := p + |w| + 1;
    AtSplit(text, p, w + " ", PrintRedirs(rs), q);
    EndsClear(text, q);
    RedirsClear(text, p', rs, q);
    RedirsPrinted(text, p', [], rs, q);
    var r := ParseRedirs(text, p', []);
    ArgsStep(text, p, argv, w, p', r);
    var argv' := argv + [Span(p, p + |w|)];
    if |argv'| < MAXARGS {
      ArgsEnd(text, q, argv', r.value);
      ReadWrap(text, Exec(argv'), r.value);
      assert ReadRedirs(text, []) + rs == rs;
      assert Words(text, argv') == all;
    }
  }

  lemma Regroup(a: string, b: string, c: string)
    ensures (a + b) + c == a + (b + c) && (b == "" ==> b + c == c)
  {
  }

  lemma WordsSplit(args: seq<string>)
    requires args != []
    ensures PrintWords(args) == (args[0] + " ") + PrintWords(args[1..]) && (args[1..] == [] ==> PrintWords(args[1..]) == "")
  {
  }

  /** Where the first of several printed words is. */
  lemma ArgPlace(text: string, p: nat, args: seq<string>, rs: seq<Redirection<string>>, q: nat)
    requires args != [] && forall i :: 0 <= i < |args| ==> LegalWord(args[i])
    requires At(text, p, PrintWords(args) + PrintRedirs(rs), q) && Ends(text, q)
    ensures args[1..] == [] ==> At(text, p, (args[0] + " ") + PrintRedirs(rs), q)
    ensures args[1..] != [] ==>
              var p' := p + |args[0]| + 1;
              && At(text, p, args[0] + " ", p') && At(text, p', PrintWords(args[1..]) + PrintRedirs(rs), q)
              && p' <= |text| && Clear(text, p') && !RedirMark(CharAt(text, p'))
  {
    hide LegalWord;
    hide PrintRedirs;
    hide RedirMark;
    hide Space;
    hide At;
    hide PrintWords;
    var w, tail := args[0], args[1..];
    WordsSplit(args);
    Regroup(w + " ", PrintWords(tail), PrintRedirs(rs));
    if tail != [] {
      AtSplit(text, p, w + " ", PrintWords(tail) + PrintRedirs(rs), q);
      EndsClear(text, q);
      WordsClear(text, p + |w| + 1, tail, rs, q);
      AtBounds(text, p + |w| + 1, PrintWords(tail) + PrintRedirs(rs), q);
    }
  }

  lemma {:induction false} ArgsPrinted(text: string, p: nat, argv: seq<Span>, args: seq<string>, rs: seq<Redirection<string>>, q: nat)
    requires Sound(text, Exec(argv)) && args != [] && LegalFiles(rs)
    requires forall i :: 0 <= i < |args| ==> LegalWord(args[i])
    requires At(text, p, PrintWords(args) + PrintRedirs(rs), q) && Ends(text, q)
    ensures Reads(text, ParseArgs(text, p, argv, []), Wrap(Exec(Words(text, argv) + args), rs), q)
    decreases |args|
  {
    hide LegalWord;
    hide WordSpan;
    hide ParseArgs;
    hide ParseRedirs;
    hide PrintRedirs;
    hide Read;
    hide Wrap;
    hide Space;
    hide RedirMark;
    hide ExecStop;
    hide At;
    hide PrintWords;
    hide Skip;
    var w, tail := args[0], args[1..];
    ArgPlace(text, p, args, rs, q);
    if tail == [] {
      LastArgPrinted(text, p, argv, w, rs, q);
      assert args == [w];
    } else {
      var all := Words(text, argv) + args;
      FitsWrap(Exec(all), rs);
      var p' := p + |w| + 1;
      RedirsEnd(text, p', []);
      ArgsStep(text, p, argv, w, p', Ok([], p'));
      var argv' := argv + [Span(p, p + |w|)];
      if |argv'| < MAXARGS {
        ArgsPrinted(text, p', argv', tail, rs, q);
        assert Words(text, argv') + tail == all;
      }
    }
  }

  // ---------- what a tree's text begins with ----------

  lemma {:induction false} FirstChar(t: Cmd<string>)
    requires Legal(t)
    ensures Raw(t) == "" || !Space(Raw(t)[0])
    decreases t
  {
    match t
    case Exec(argv) => if argv != [] { assert LegalWord(argv[0]); assert Raw(t)[0] == argv[0][0]; }
    case Redir(c, _, _) => FirstChar(c);
    case Pipe(l, r) => FirstChar(l);
    case List(l, r) => FirstChar(l);
    case Back(c) => FirstChar(c);
  }

  lemma PrintClear(text: string, p: nat, t: Cmd<string>, level: nat, q: nat)
    requires Legal(t) && At(text, p, Print(t, level), q) && Clear(text, q)
    ensures Clear(text, p)
  {
    FirstChar(t);
    if p < q {
      assert text[p] == text[p..q][0] == Print(t, level)[0];
    }
  }

  // ---------- commands with redirections ----------

  function Base(t: Cmd<string>): (b: Cmd<string>)
    ensures !b.Redir?
    decreases t
  {
    if t.Redir? then Base(t.cmd) else t
  }

  function Files(t: Cmd<string>): seq<Redirection<string>>
    decreases t
  {
    if t.Redir? then Files(t.cmd) + [Redirection(t.file, t.mode)] else []
  }

  lemma {:induction false} PrintRedirsSnoc(rs: seq<Redirection<string>>, x: Redirection<string>)
    ensures PrintRedirs(rs + [x]) == PrintRedirs(rs) + PrintRedir(x)
    decreases |rs|
  {
    if rs == [] {
      assert PrintRedirs(rs + [x]) == PrintRedir(x) + PrintRedirs([]);
    } else {
      assert (rs + [x])[1..] == rs[1..] + [x];
      PrintRedirsSnoc(rs[1..], x);
    }
  }

  lemma {:induction false} Unwrap(t: Cmd<string>)
    ensures t == Wrap(Base(t), Files(t)) && Print(t, 0) == Print(Base(t), 0) + PrintRedirs(Files(t))
    ensures Legal(t) ==> Legal(Base(t)) && LegalFiles(Files(t))
    decreases t
  {
    if t.Redir? {
      Unwrap(t.cmd);
      var x := Redirection(t.file, t.mode);
      assert Files(t)[..|Files(t)| - 1] == Files(t.cmd);
      PrintRedirsSnoc(Files(t.cmd), x);
    }
  }

  lemma SimplePrinted(text: string, p: nat, args: seq<string>, rs: seq<Redirection<string>>, q: nat)
    requires Legal(Exec(args)) && LegalFiles(rs)
    requires At(text, p, PrintWords(args) + PrintRedirs(rs), q) && Ends(text, q)
    ensures Reads(text, ParseExec(text, p), Wrap(Exec(args), rs), q)
  {
    hide LegalWord;
    hide WordSpan;
    hide ParseArgs;
    hide ParseRedirs;
    EndsClear(text, q);
    WordsClear(text, p, args, rs, q);
    SkipClear(text, p);
    if args == [] {
      assert PrintWords(args) + PrintRedirs(rs) == PrintRedirs(rs);
      NoParen(text, p, rs, q);
      RedirsPrinted(text, p, [], rs, q);
      var r := ParseRedirs(text, p, []);
      assert ReadRedirs(text, []) + rs == rs;
      ArgsEnd(text, q, [], r.value);
      ReadWrap(text, Exec([]), r.value);
      FitsWrap(Exec(args), rs);
      assert Words(text, []) == args;
    } else {
      RedirsEnd(text, p, []);
      ArgsPrinted(text, p, [], args, rs, q);
      assert Words(text, []) + args == args;
    }
  }

  lemma NoParen(text: string, p: nat, rs: seq<Redirection<string>>, q: nat)
    requires At(text, p, PrintRedirs(rs), q) && Ends(text, q)
    ensures CharAt(text, p) != '('
  {
  }

  lemma BlockPrinted(text: string, p: nat, t: Cmd<string>, rs: seq<Redirection<string>>, q: nat)
    requires Legal(t) && LegalFiles(rs) && Level(t) > 0
    requires At(text, p, Print(t, 0) + PrintRedirs(rs), q) && Ends(text, q)
    ensures Reads(text, ParseExec(text, p), Wrap(t, rs), q)
    decreases q - p, 0
  {
    hide GetToken;
    hide ParseLine;
    hide ParseRedirs;
    hide ParseExec;
    hide WordSpan;
    hide Raw;
    hide PrintRedirs;
    hide Legal;
    hide LegalFiles;
    hide Reads;
    hide RedirsRead;
    hide At;
    hide Skip;
    var q1 := p + 2 + |Raw(t)|;
    BlockPlace(text, p, t, rs, q);
    LinePrinted(text, p + 2, t, q1);
    RedirsPrinted(text, q1 + 2, [], rs, q);
    BlockParsed(text, p, t, rs, q1, q);
  }

  lemma BlockShape(t: Cmd<string>, s: string)
    requires Level(t) > 0
    ensures Print(t, 0) + s == "( " + (Raw(t) + (") " + s)) && Print(t, 3) == Raw(t)
  {
    hide Raw;
    assert Print(t, 0) == "( " + (Raw(t) + ") ");
    Regroup("( ", Raw(t) + ") ", s);
    Regroup(Raw(t), ") ", s);
  }

  lemma ClearAt(text: string, p: nat, s: string, q: nat)
    requires At(text, p, s, q) && s != "" && !Space(s[0])
    ensures Clear(text, p)
  {
    assert text[p] == text[p..q][0] == s[0];
  }

  /** Where a tree in parentheses and the redirections after it are. */
  lemma BlockPlace(text: string, p: nat, t: Cmd<string>, rs: seq<Redirection<string>>, q: nat)
    requires Legal(t) && LegalFiles(rs) && Level(t) > 0
    requires At(text, p, Print(t, 0) + PrintRedirs(rs), q) && Ends(text, q)
    ensures var q1 := p + 2 + |Raw(t)|;
            && q1 + 2 <= q <= |text| && At(text, p + 2, Print(t, 3), q1) && At(text, q1 + 2, PrintRedirs(rs), q) && Clear(text, q1 + 2)
            && text[p] == '(' && Skip(text, p) == p && GetToken(text, p).next == p + 2
            && text[q1] == ')' && Skip(text, q1) == q1 && GetToken(text, q1).next == q1 + 2
  {
    hide GetToken;
    hide Skip;
    hide Raw;
    hide PrintRedirs;
    hide Legal;
    hide LegalFiles;
    hide At;
    var q1 := p + 2 + |Raw(t)|;
    BlockShape(t, PrintRedirs(rs));
    AtSplit(text, p, "( ", Raw(t) + (") " + PrintRedirs(rs)), q);
    AtSplit(text, p + 2, Raw(t), ") " + PrintRedirs(rs), q);
    AtSplit(text, q1, ") ", PrintRedirs(rs), q);
    AtBounds(text, q1 + 2, PrintRedirs(rs), q);
    EndsClear(text, q);
    RedirsClear(text, q1 + 2, rs, q);
    ClearAt(text, q1, ") ", q1 + 2);
    PrintClear(text, p + 2, t, 3, q1);
    assert "( " == ['('] + " " && ") " == [')'] + " ";
    SymbolToken(text, p, '(');
    SymbolToken(text, q1, ')');
  }

  lemma BlockParsed(text: string, p: nat, t: Cmd<string>, rs: seq<Redirection<string>>, q1: nat, q: nat)
    requires p < q1 < |text| && q1 + 2 <= |text| && text[p] == '(' && text[q1] == ')' && p + 2 <= q1
    requires Skip(text, p) == p && GetToken(text, p).next == p + 2 && Skip(text, q1) == q1 && GetToken(text, q1).next == q1 + 2
    requires Reads(text, ParseLine(text, p + 2), t, q1)
    requires RedirsRead(text, ParseRedirs(text, q1 + 2, []), ReadRedirs(text, []) + rs, q)
    ensures Reads(text, ParseExec(text, p), Wrap(t, rs), q)
  {
    hide GetToken;
    hide ParseLine;
    hide ParseRedirs;
    hide WordSpan;
    FitsWrap(t, rs);
    assert ReadRedirs(text, []) + rs == rs;
    if Fits(t) {
      ReadWrap(text, ParseLine(text, p + 2).value, ParseRedirs(text, q1 + 2, []).value);
    }
  }

  lemma ExecPrinted(text: string, p: nat, t: Cmd<string>, q: nat)
    requires Legal(t) && At(text, p, Print(t, 0), q) && Ends(text, q)
    ensures Reads(text, ParseExec(text, p), t, q)
    decreases q - p, 1
  {
    Unwrap(t);
    var b, rs := Base(t), Files(t);
    if b.Exec? {
      SimplePrinted(text, p, b.argv, rs, q);
    } else {
      BlockPrinted(text, p, b, rs, q);
    }
  }

  // ---------- pipes, '&' and ';' ----------

  predicate PipeEnds(text: string, q: nat) {
    q <= |text| && (q < |text| ==> text[q] == ')' || text[q] == '&' || text[q] == ';')
  }

  lemma PrintShape(t: Cmd<string>)
    ensures Print(t, 1) == if t.Pipe? then Print(t.left, 0) + ((['|'] + " ") + Print(t.right, 1)) else Print(t, 0)
    ensures Print(t, 2) == if t.Back? then Print(t.cmd, 2) + "& " else Print(t, 1)
    ensures Print(t, 3) == if t.List? then Print(t.left, 2) + (([';'] + " ") + Print(t.right, 3)) else Print(t, 2)
  {
    assert "| " == ['|'] + " " && "; " == [';'] + " ";
  }

  /** A symbol and a blank between two strings. */
  lemma SplitAround(text: string, p: nat, a: string, c: char, b: string, q: nat)
    requires At(text, p, a + (([c] + " ") + b), q)
    ensures At(text, p, a, p + |a|) && At(text, p + |a| + 2, b, q)
    ensures p + |a| + 2 <= q && At(text, p + |a|, [c] + " ", p + |a| + 2) && text[p + |a|] == c
  {
    var q1 := p + |a|;
    AtSplit(text, p, a, ([c] + " ") + b, q);
    AtSplit(text, q1, [c] + " ", b, q);
    assert text[q1] == text[q1..q1 + 2][0] == c;
  }

  lemma BacksEnd(text: string, q: nat, c: Cmd<Span>)
    requires Sound(text, c) && Clear(text, q) && CharAt(text, q) != '&'
    ensures ParseBacks(text, q, c) == Ok(c, q)
  {
  }

  lemma PipePrinted(text: string, p: nat, t: Cmd<string>, q: nat)
    requires Legal(t) && At(text, p, Print(t, 1), q) && PipeEnds(text, q)
    ensures Reads(text, ParsePipe(text, p), t, q)
    decreases q - p, 2
  {
    hide GetToken;
    hide ParseExec;
    hide ParsePipe;
    hide Reads;
    hide WordSpan;
    hide Skip;
    hide Print;
    hide Raw;
    hide At;
    PrintShape(t);
    if t.Pipe? {
      var q1 := p + |Print(t.left, 0)|;
      PipeBar(text, p, t, q);
      ExecPrinted(text, p, t.left, q1);
      PipePrinted(text, q1 + 2, t.right, q);
      PipeParsed(text, p, t.left, q1, t.right, q);
    } else {
      ExecPrinted(text, p, t, q);
      PipeStops(text, p, Print(t, 1), q);
      PipeAlone(text, p, t, q);
    }
  }

  /** Where the two sides of a printed pipe are. */
  lemma PipeBar(text: string, p: nat, t: Cmd<string>, q: nat)
    requires Legal(t) && t.Pipe? && At(text, p, Print(t, 1), q) && PipeEnds(text, q)
    ensures var q1 := p + |Print(t.left, 0)|;
            && q1 + 2 <= q <= |text| && At(text, p, Print(t.left, 0), q1) && At(text, q1 + 2, Print(t.right, 1), q)
            && text[q1] == '|' && Skip(text, q1) == q1 && GetToken(text, q1).next == q1 + 2
  {
    hide GetToken;
    hide Skip;
    hide Print;
    hide At;
    PrintShape(t);
    Around(text, p, Print(t.left, 0), '|', t.right, 1, q);
  }

  /** Where a symbol between a string and a printed tree is. */
  lemma Around(text: string, p: nat, a: string, c: char, t: Cmd<string>, level: nat, q: nat)
    requires Legal(t) && Symbol(c) && At(text, p, a + (([c] + " ") + Print(t, level)), q) && Clear(text, q)
    ensures var q1 := p + |a|;
            && q1 + 2 <= q <= |text| && At(text, p, a, q1) && At(text, q1 + 2, Print(t, level), q)
            && text[q1] == c && Skip(text, q1) == q1 && GetToken(text, q1) == Token(c, Span(q1, q1 + 1), q1 + 2)
  {
    hide GetToken;
    hide Skip;
    hide Print;
    hide At;
    hide Legal;
    hide Symbol;
    SplitAround(text, p, a, c, Print(t, level), q);
    AtBounds(text, p + |a| + 2, Print(t, level), q);
    PrintClear(text, p + |a| + 2, t, level, q);
    SymbolToken(text, p + |a|, c);
  }

  lemma PipeStops(text: string, p: nat, s: string, q: nat)
    requires At(text, p, s, q) && PipeEnds(text, q)
    ensures p <= q <= |text| && CharAt(text, q) != '|' && Skip(text, q) == q
  {
    hide At;
    hide Skip;
    SkipClear(text, q);
    AtBounds(text, p, s, q);
  }

  lemma PipeParsed(text: string, p: nat, l: Cmd<string>, q1: nat, r: Cmd<string>, q: nat)
    requires p <= |text| && q1 + 2 <= |text| && text[q1] == '|' && Skip(text, q1) == q1 && GetToken(text, q1).next == q1 + 2
    requires Reads(text, ParseExec(text, p), l, q1) && Reads(text, ParsePipe(text, q1 + 2), r, q)
    ensures Reads(text, ParsePipe(text, p), Pipe(l, r), q)
  {
    hide ParseExec;
    hide GetToken;
    hide Skip;
    hide WordSpan;
  }

  lemma PipeAlone(text: string, p: nat, t: Cmd<string>, q: nat)
    requires p <= |text| && q <= |text| && CharAt(text, q) != '|' && Skip(text, q) == q && Reads(text, ParseExec(text, p), t, q)
    ensures Reads(text, ParsePipe(text, p), t, q)
  {
    hide ParseExec;
    hide GetToken;
    hide Skip;
    hide WordSpan;
  }

  lemma BackMark(text: string, p: nat, a: string, q: nat)
    requires At(text, p, a + "& ", q) && PipeEnds(text, q)
    ensures q >= p + 2 && At(text, p, a, q - 2) && PipeEnds(text, q - 2)
    ensures text[q - 2] == '&' && Skip(text, q - 2) == q - 2 && GetToken(text, q - 2) == Token('&', Span(q - 2, q - 1), q)
  {
    hide GetToken;
    hide Skip;
    AtSplit(text, p, a, "& ", q);
    assert text[q - 2] == text[q - 2..q][0] == '&';
    assert "& " == ['&'] + " ";
    SymbolToken(text, q - 2, '&');
  }

  /** The text of a tree at the '&' level: parsepipe and the loop get to `q` with the tree
      in hand. */
  lemma BacksPrinted(text: string, p: nat, t: Cmd<string>, q: nat) returns (c: Cmd<Span>)
    requires Legal(t) && At(text, p, Print(t, 2), q) && PipeEnds(text, q)
    ensures !Fits(t) ==> ParsePipe(text, p) == Panic(TooManyArgs)
    ensures Fits(t) ==> Sound(text, c) && Read(text, c) == t && ParsePipe(text, p).Ok?
    ensures Fits(t) ==> ParseBacks(text, ParsePipe(text, p).pos, ParsePipe(text, p).value) == ParseBacks(text, q, c)
    decreases q - p, 3
  {
    hide GetToken;
    hide ParsePipe;
    hide WordSpan;
    hide Skip;
    hide Print;
    hide Raw;
    hide At;
    PrintShape(t);
    if t.Back? {
      var q1 := q - 2;
      BackMark(text, p, Print(t.cmd, 2), q);
      var c' := BacksPrinted(text, p, t.cmd, q1);
      c := Back(c');
    } else {
      PipePrinted(text, p, t, q);
      c := if Fits(t) then ParsePipe(text, p).value else Exec([]);
    }
  }

  lemma LinePrinted(text: string, p: nat, t: Cmd<string>, q: nat)
    requires Legal(t) && At(text, p, Print(t, 3), q) && q <= |text| && (q < |text| ==> text[q] == ')')
    ensures Reads(text, ParseLine(text, p), t, q)
    decreases q - p, 4
  {
    hide GetToken;
    hide ParsePipe;
    hide WordSpan;
    hide Skip;
    hide Print;
    hide Raw;
    hide ParseBacks;
    hide At;
    PrintShape(t);
    if t.List? {
      var q1 := p + |Print(t.left, 2)|;
      Around(text, p, Print(t.left, 2), ';', t.right, 3, q);
      var c := BacksPrinted(text, p, t.left, q1);
      if Fits(t.left) { BacksEnd(text, q1, c); }
      LinePrinted(text, q1 + 2, t.right, q);
    } else {
      SkipClear(text, q);
      var c := BacksPrinted(text, p, t, q);
      if Fits(t) { BacksEnd(text, q, c); }
    }
  }

  // ---------- the round trip ----------

  /** parsecmd of a printed tree gives the tree back, unless some command in it has ten
      arguments or more, and then it panics for that. */
  lemma ParsePrinted(t: Cmd<string>)
    requires Legal(t)
    ensures Reads(Print(t, 3), ParseCmd(Print(t, 3)), t, |Print(t, 3)|)
  {
    var text := Print(t, 3);
    assert At(text, 0, text, |text|);
    LinePrinted(text, 0, t, |text|);
    SkipClear(text, |text|);
  }

  lemma {:induction false} ReadLegal(text: string, c: Cmd<Span>)
    requires '\0' !in text && Sound(text, c)
    ensures Legal(Read(text, c)) && Fits(Read(text, c))
    decreases c
  {
    match c
    case Exec(argv) =>
    case Redir(c', _, _) => ReadLegal(text, c');
    case Pipe(l, r) => ReadLegal(text, l); ReadLegal(text, r);
    case List(l, r) => ReadLegal(text, l); ReadLegal(text, r);
    case Back(c') => ReadLegal(text, c');
  }

  /** Whatever text a tree came from, printing it and parsing that gives it again. */
  lemma Reprint(text: string)
    requires '\0' !in text && ParseCmd(text).Ok?
    ensures var t := Read(text, ParseCmd(text).value);
            var r := ParseCmd(Print(t, 3));
            r.Ok? && Read(Print(t, 3), r.value) == t
  {
    var c := ParseCmd(text).value;
    ReadLegal(text, c);
    ParsePrinted(Read(text, c));
  }

  /** The trees the parser can produce are the legal ones without too long a command. */
  lemma Parsable(t: Cmd<string>)
    ensures (Legal(t) && Fits(t)) <==> exists text: string :: '\0' !in text && ParseCmd(text).Ok? && Read(text, ParseCmd(text).value) == t
  {
    if Legal(t) && Fits(t) {
      PrintNoNul(t);
      ParsePrinted(t);
    }
    if text: string :| '\0' !in text && ParseCmd(text).Ok? && Read(text, ParseCmd(text).value) == t {
      ReadLegal(text, ParseCmd(text).value);
    }
  }

  lemma {:induction false} PrintNoNul(t: Cmd<string>)
    requires Legal(t)
    ensures '\0' !in Raw(t)
    decreases t
  {
    match t
    case Exec(argv) => WordsNoNul(argv);
    case Redir(c, _, _) => PrintNoNul(c);
    case Pipe(l, r) => PrintNoNul(l); PrintNoNul(r);
    case List(l, r) => PrintNoNul(l); PrintNoNul(r);
    case Back(c) => PrintNoNul(c);
  }

  lemma {:induction false} WordsNoNul(argv: seq<string>)
    requires forall i :: 0 <= i < |argv| ==> LegalWord(argv[i])
    ensures '\0' !in PrintWords(argv)
    decreases |argv|
  {
    if argv != [] { WordsNoNul(argv[1..]); }
  }
}

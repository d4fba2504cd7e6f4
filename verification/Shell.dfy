/** The shell's parser on its buffer (sh.c:266-493): a cursor that the parse functions
    advance, and the NULs that nulterminate writes into the text. */
module Shell {
  import opened ShellSpec
  import opened ShellPrint
  import T = ShellTokens
  import G = ShellGrammar

  // ---------- strings in memory ----------

  function CString(mem: string, p: nat): string
    decreases |mem| - p
  {
    if p < |mem| && mem[p] != '\0' then [mem[p]] + CString(mem, p + 1) else ""
  }

  function CStrings(mem: string, argv: seq<Span>): (r: seq<string>)
    ensures |r| == |argv| && forall i :: 0 <= i < |argv| ==> r[i] == CString(mem, argv[i].q)
  {
    seq(|argv|, i requires 0 <= i < |argv| => CString(mem, argv[i].q))
  }

  /** The tree as runcmd sees it: every argv and file is a C string. */
  function CRead(mem: string, c: Cmd<Span>): Cmd<string>
    decreases c
  {
    match c
    case Exec(argv) => Exec(CStrings(mem, argv))
    case Redir(c', file, mode) => Redir(CRead(mem, c'), CString(mem, file.q), mode)
    case Pipe(l, r) => Pipe(CRead(mem, l), CRead(mem, r))
    case List(l, r) => List(CRead(mem, l), CRead(mem, r))
    case Back(c') => Back(CRead(mem, c'))
  }

  /** Where the words of a tree end. */
  function WordEnds(c: Cmd<Span>): set<nat>
    decreases c
  {
    match c
    case Exec(argv) => set i | 0 <= i < |argv| :: argv[i].eq
    case Redir(c', file, _) => WordEnds(c') + {file.eq}
    case Pipe(l, r) => WordEnds(l) + WordEnds(r)
    case List(l, r) => WordEnds(l) + WordEnds(r)
    case Back(c') => WordEnds(c')
  }

  function Terminated(mem: string, ends: set<nat>): (r: string)
    ensures |r| == |mem| && forall i :: 0 <= i < |mem| ==> r[i] == if i in ends then '\0' else mem[i]
  {
    seq(|mem|, i requires 0 <= i < |mem| => if i in ends then '\0' else mem[i])
  }

  ghost predicate Delimiters(text: string, ends: set<nat>) {
    forall e :: e in ends ==> e <= |text| && (e < |text| ==> !WordChar(text[e]))
  }

  lemma {:induction false} EndsDelimit(text: string, c: Cmd<Span>)
    requires WordSpans(text, c)
    ensures Delimiters(text, WordEnds(c))
    decreases c
  {
    match c
    case Exec(argv) =>
    case Redir(c', _, _) => EndsDelimit(text, c');
    case Pipe(l, r) => EndsDelimit(text, l); EndsDelimit(text, r);
    case List(l, r) => EndsDelimit(text, l); EndsDelimit(text, r);
    case Back(c') => EndsDelimit(text, c');
  }

  lemma {:induction false} CStringIs(mem: string, p: nat, e: nat)
    requires p <= e < |mem| && mem[e] == '\0' && forall i :: p <= i < e ==> mem[i] != '\0'
    ensures CString(mem, p) == mem[p..e]
    decreases e - p
  {
    if p < e {
      CStringIs(mem, p + 1, e);
    }
  }

  lemma WordTerminated(mem: string, n: nat, ends: set<nat>, s: Span)
    requires n < |mem| && '\0' !in mem[..n] && mem[n] == '\0' && Delimiters(mem[..n], ends)
    requires WordSpan(mem[..n], s) && s.eq in ends
    ensures CString(Terminated(mem, ends), s.q) == Word(mem[..n], s)
  {
    var mem' := Terminated(mem, ends);
    forall i | s.q <= i < s.eq
      ensures mem'[i] == mem[i] && mem[i] != '\0'
    {
      assert WordChar(mem[..n][i]) && mem[..n][i] != '\0';
    }
    CStringIs(mem', s.q, s.eq);
    assert mem'[s.q..s.eq] == mem[..n][s.q..s.eq];
  }

  /** Ending every word in place leaves every word of the tree, read as a C string, exactly
      its token: no end lies inside another word. */
  lemma {:induction false} WordsTerminated(mem: string, n: nat, ends: set<nat>, c: Cmd<Span>)
    requires n < |mem| && '\0' !in mem[..n] && mem[n] == '\0' && Delimiters(mem[..n], ends)
    requires WordSpans(mem[..n], c) && WordEnds(c) <= ends
    ensures CRead(Terminated(mem, ends), c) == Read(mem[..n], c)
    decreases c
  {
    match c
    case Exec(argv) =>
      forall i | 0 <= i < |argv|
        ensures CString(Terminated(mem, ends), argv[i].q) == Word(mem[..n], argv[i])
      {
        assert argv[i].eq in WordEnds(c);
        WordTerminated(mem, n, ends, argv[i]);
      }
      assert CStrings(Terminated(mem, ends), argv) == Words(mem[..n], argv);
    case Redir(c', file, _) =>
      WordTerminated(mem, n, ends, file);
      WordsTerminated(mem, n, ends, c');
    case Pipe(l, r) => WordsTerminated(mem, n, ends, l); WordsTerminated(mem, n, ends, r);
    case List(l, r) => WordsTerminated(mem, n, ends, l); WordsTerminated(mem, n, ends, r);
    case Back(c') => WordsTerminated(mem, n, ends, c');
  }

  // ---------- the parser ----------

  lemma SkipTwice(text: string, p: nat)
    requires p <= |text|
    ensures Skip(text, Skip(text, p)) == Skip(text, p)
  {
  }

  lemma RedirsSkip(text: string, p: nat, rs: seq<Redirection<Span>>)
    requires p <= |text| && FileSpans(text, rs)
    ensures ParseRedirs(text, Skip(text, p), rs) == ParseRedirs(text, p, rs)
  {
  }

  lemma ArgsSkip(text: string, p: nat, argv: seq<Span>, rs: seq<Redirection<Span>>)
    requires p <= |text| && Sound(text, Exec(argv)) && FileSpans(text, rs)
    ensures ParseArgs(text, Skip(text, p), argv, rs) == ParseArgs(text, p, argv, rs)
  {
  }

  lemma BacksSkip(text: string, p: nat, c: Cmd<Span>)
    requires p <= |text| && Sound(text, c)
    ensures p <= Skip(text, p) <= |text| && ParseBacks(text, Skip(text, p), c) == ParseBacks(text, p, c)
  {
    hide GetToken;
    SkipTwice(text, p);
    hide Skip;
  }

  lemma BacksTurn(text: string, p: nat, c: Cmd<Span>)
    requires p <= |text| && p == Skip(text, p) && Sound(text, c) && CharAt(text, p) == '&'
    ensures p < GetToken(text, p).next <= |text| && Sound(text, Back(c))
    ensures Skip(text, GetToken(text, p).next) <= |text|
    ensures ParseBacks(text, p, c) == ParseBacks(text, Skip(text, GetToken(text, p).next), Back(c))
  {
    BacksSkip(text, GetToken(text, p).next, Back(c));
  }

  lemma NoMoreBacks(text: string, p: nat, c: Cmd<Span>)
    requires p <= |text| && p == Skip(text, p) && Sound(text, c) && CharAt(text, p) != '&'
    ensures ParseBacks(text, p, c) == Ok(c, p)
  {
  }

  class Parser {
    const buf: array<char>
    const es: nat
    var ps: nat

    ghost predicate Valid()
      reads this
    {
      ps <= es < buf.Length
    }

    ghost function Text(): string
      reads buf
    {
      if es < buf.Length then buf[..es] else ""
    }

    constructor (buf: array<char>, es: nat)
      requires es < buf.Length
      ensures Valid() && this.buf == buf && this.es == es && ps == 0
    {
      this.buf, this.es, ps := buf, es, 0;
    }

    /** The loops over blanks in gettoken and peek. */
    method SkipBlanks()
      requires Valid()
      modifies `ps
      ensures Valid() && ps == Skip(Text(), old(ps))
    {
      while ps < es && Space(buf[ps])
        invariant Valid() && Skip(Text(), ps) == Skip(Text(), old(ps))
      {
        ps := ps + 1;
      }
    }

    method SkipWord()
      requires Valid()
      modifies `ps
      ensures Valid() && ps == WordEnd(Text(), old(ps))
    {
      while ps < es && !Space(buf[ps]) && !Symbol(buf[ps])
        invariant Valid() && WordEnd(Text(), ps) == WordEnd(Text(), old(ps))
      {
        ps := ps + 1;
      }
    }

    /** gettoken (sh.c:266-308). */
    method Gettoken() returns (kind: char, span: Span)
      requires Valid() && buf[es] == '\0'
      modifies `ps
      ensures Valid() && Token(kind, span, ps) == GetToken(Text(), old(ps))
    {
      hide Skip;
      hide GetToken;
      SkipTwice(Text(), ps);
      ghost var from := ps;
      SkipBlanks();
      var q := ps;
      kind := PastToken(from);
      span := Span(q, ps);
      SkipBlanks();
    }

    /** The switch of gettoken (sh.c:277-300). */
    method PastToken(ghost from: nat) returns (kind: char)
      requires Valid() && buf[es] == '\0' && from <= |Text()| && ps == Skip(Text(), from) == Skip(Text(), ps)
      modifies `ps
      ensures Valid() && ps <= |Text()| && GetToken(Text(), from) == Token(kind, Span(old(ps), ps), Skip(Text(), ps))
    {
      hide Skip;
      hide WordEnd;
      hide WordSpan;
      kind := buf[ps];
      if kind == '>' {
        ps := ps + 1;
        if buf[ps] == '>' {
          kind := '+';
          ps := ps + 1;
        }
      } else if Symbol(kind) {
        ps := ps + 1;
      } else if kind != '\0' {
        kind := 'a';
        SkipWord();
      }
    }

    /** peek (sh.c:310-320). */
    method Peek(toks: string) returns (found: bool)
      requires Valid() && buf[es] == '\0'
      modifies `ps
      ensures Valid() && ps == Skip(Text(), old(ps))
      ensures found <==> CharAt(Text(), ps) != '\0' && CharAt(Text(), ps) in toks
    {
      SkipBlanks();
      found := buf[ps] != '\0' && buf[ps] in toks;
    }

    method PeekRedir() returns (found: bool)
      requires Valid() && buf[es] == '\0'
      modifies `ps
      ensures Valid() && ps == Skip(Text(), old(ps)) == Skip(Text(), ps) && (found <==> RedirMark(CharAt(Text(), ps)))
    {
      SkipTwice(Text(), ps);
      found := Peek("<>");
    }

    method PeekStop() returns (found: bool)
      requires Valid() && buf[es] == '\0'
      modifies `ps
      ensures Valid() && ps == Skip(Text(), old(ps)) == Skip(Text(), ps) && (found <==> ExecStop(CharAt(Text(), ps)))
    {
      SkipTwice(Text(), ps);
      found := Peek("|)&;");
    }

    method PeekSymbol(c: char) returns (found: bool)
      requires Valid() && buf[es] == '\0' && Symbol(c)
      modifies `ps
      ensures Valid() && ps == Skip(Text(), old(ps)) == Skip(Text(), ps) && (found <==> CharAt(Text(), ps) == c)
    {
      SkipTwice(Text(), ps);
      found := Peek([c]);
    }

    ghost predicate Returns<V>(r: Parsed<V>, spec: Parsed<V>)
      reads this
    {
      r == spec && (r.Ok? ==> Valid() && ps == r.pos)
    }

    /** The operator and the file of one redirection (sh.c:381-383). */
    method Parseredir() returns (r: Parsed<Redirection<Span>>)
      requires Valid() && buf[es] == '\0'
      modifies `ps
      ensures Returns(r, ParseRedir(Text(), old(ps)))
    {
      hide GetToken;
      var tok, _ := Gettoken();
      var kind, file := Gettoken();
      r := if kind != 'a' then Panic(MissingFile) else Ok(Redirection(file, if tok == '<' then Input else Output), ps);
    }

    /** parseredirs (sh.c:374-397); the redirections are put around the command when the
        caller has all of it. */
    method Parseredirs(before: seq<Redirection<Span>>) returns (r: Parsed<seq<Redirection<Span>>>)
      requires Valid() && buf[es] == '\0' && FileSpans(Text(), before)
      modifies `ps
      ensures Returns(r, ParseRedirs(Text(), old(ps), before))
    {
      hide GetToken;
      hide Skip;
      hide WordSpan;
      ghost var text := Text();
      var rs := before;
      RedirsSkip(text, ps, rs);
      var more := PeekRedir();
      while more
        invariant Valid() && Text() == text && ps == Skip(text, ps) && FileSpans(text, rs)
        invariant more <==> RedirMark(CharAt(text, ps))
        invariant ParseRedirs(text, ps, rs) == ParseRedirs(text, old(ps), before)
        decreases es - ps
      {
        var one := Parseredir();
        if one.Panic? { return Panic(one.fault); }
        rs := rs + [one.value];
        RedirsSkip(text, ps, rs);
        more := PeekRedir();
      }
      r := Ok(rs, ps);
    }

    /** parseexec (sh.c:415-446). */
    method Parseexec() returns (r: Parsed<Cmd<Span>>)
      requires Valid() && buf[es] == '\0'
      modifies `ps
      ensures Returns(r, ParseExec(Text(), old(ps)))
      decreases es - ps, 1
    {
      var block := PeekSymbol('(');
      if block {
        r := Parseblock();
        return;
      }
      var rs := Parseredirs([]);
      if rs.Panic? { return Panic(rs.fault); }
      r := Parseargs(rs.value);
    }

    /** The loop over the arguments (sh.c:431-445). */
    method Parseargs(before: seq<Redirection<Span>>) returns (r: Parsed<Cmd<Span>>)
      requires Valid() && buf[es] == '\0' && FileSpans(Text(), before)
      modifies `ps
      ensures Returns(r, ParseArgs(Text(), old(ps), [], before))
    {
      hide GetToken;
      hide Skip;
      hide WordSpan;
      hide ParseRedirs;
      ghost var text := Text();
      var argv: seq<Span>, rs := [], before;
      ArgsSkip(text, ps, argv, rs);
      var stop := PeekStop();
      while !stop
        invariant Valid() && Text() == text && ps == Skip(text, ps) && FileSpans(text, rs) && Sound(text, Exec(argv))
        invariant stop <==> ExecStop(CharAt(text, ps))
        invariant ParseArgs(text, ps, argv, rs) == ParseArgs(text, old(ps), [], before)
        decreases es - ps
      {
        var kind, span := Gettoken();
        if kind == '\0' { break; }
        if kind != 'a' { return Panic(Syntax); }
        argv := argv + [span];
        if |argv| >= MAXARGS { return Panic(TooManyArgs); }
        var more := Parseredirs(rs);
        if more.Panic? { return Panic(more.fault); }
        rs := more.value;
        ArgsSkip(text, ps, argv, rs);
        stop := PeekStop();
      }
      r := Ok(Wrap(Exec(argv), rs), ps);
    }

    /** parseblock (sh.c:399-413). */
    method Parseblock() returns (r: Parsed<Cmd<Span>>)
      requires Valid() && buf[es] == '\0' && ps < es && buf[ps] == '('
      modifies `ps
      ensures Returns(r, ParseBlock(Text(), old(ps)))
      decreases es - ps, 0
    {
      var _, _ := Gettoken();
      r := Parseline();
      if r.Panic? { return; }
      var close := PeekSymbol(')');
      if !close { return Panic(MissingParen); }
      var _, _ := Gettoken();
      var rs := Parseredirs([]);
      r := if rs.Panic? then Panic(rs.fault) else Ok(Wrap(r.value, rs.value), ps);
    }

    /** parsepipe (sh.c:361-372). */
    method Parsepipe() returns (r: Parsed<Cmd<Span>>)
      requires Valid() && buf[es] == '\0'
      modifies `ps
      ensures Returns(r, ParsePipe(Text(), old(ps)))
      decreases es - ps, 2
    {
      r := Parseexec();
      if r.Panic? { return; }
      var bar := PeekSymbol('|');
      if !bar { return Ok(r.value, ps); }
      var _, _ := Gettoken();
      var right := Parsepipe();
      r := if right.Panic? then right else Ok(Pipe(r.value, right.value), ps);
    }

    /** The loop of parseline (sh.c:350-353). */
    method Backs(first: Cmd<Span>) returns (c: Cmd<Span>)
      requires Valid() && buf[es] == '\0' && Sound(Text(), first)
      modifies `ps
      ensures Valid() && old(ps) <= ps == Skip(Text(), ps) && Sound(Text(), c)
      ensures ParseBacks(Text(), old(ps), first) == Ok(c, ps)
    {
      hide GetToken;
      hide WordSpan;
      hide Sound;
      hide ParseBacks;
      hide Skip;
      c := first;
      BacksSkip(Text(), ps, c);
      var back := PeekSymbol('&');
      while back
        invariant Valid() && old(ps) <= ps == Skip(Text(), ps) && Sound(Text(), c)
        invariant back <==> CharAt(Text(), ps) == '&'
        invariant ParseBacks(Text(), ps, c) == ParseBacks(Text(), old(ps), first)
        decreases es - ps
      {
        BacksTurn(Text(), ps, c);
        var _, _ := Gettoken();
        c := Back(c);
        back := PeekSymbol('&');
      }
      NoMoreBacks(Text(), ps, c);
    }

    /** parseline (sh.c:344-359). */
    method Parseline() returns (r: Parsed<Cmd<Span>>)
      requires Valid() && buf[es] == '\0'
      modifies `ps
      ensures Returns(r, ParseLine(Text(), old(ps)))
      decreases es - ps, 3
    {
      hide GetToken;
      hide WordSpan;
      var first := Parsepipe();
      if first.Panic? { return first; }
      var c := Backs(first.value);
      var semi := PeekSymbol(';');
      if !semi { return Ok(c, ps); }
      var _, _ := Gettoken();
      var right := Parseline();
      r := if right.Panic? then right else Ok(List(c, right.value), ps);
    }
  }

  // ---------- nulterminate and parsecmd ----------

  ghost predicate InBuffer(c: Cmd<Span>, n: nat) {
    forall e :: e in WordEnds(c) ==> e < n
  }

  lemma PartsInBuffer(c: Cmd<Span>, n: nat)
    requires InBuffer(c, n)
    ensures (c.Redir? || c.Back?) ==> InBuffer(c.cmd, n)
    ensures c.Redir? ==> c.file.eq < n
    ensures (c.Pipe? || c.List?) ==> InBuffer(c.left, n) && InBuffer(c.right, n)
  {
    match c
    case Exec(_) =>
    case Redir(c', file, _) => assert WordEnds(c') <= WordEnds(c) && file.eq in WordEnds(c);
    case Pipe(l, r) => assert WordEnds(l) <= WordEnds(c) && WordEnds(r) <= WordEnds(c);
    case List(l, r) => assert WordEnds(l) <= WordEnds(c) && WordEnds(r) <= WordEnds(c);
    case Back(c') => assert WordEnds(c') <= WordEnds(c);
  }

  lemma TerminatedTwice(mem: string, a: set<nat>, b: set<nat>)
    ensures Terminated(Terminated(mem, a), b) == Terminated(mem, a + b)
  {
  }

  /** nulterminate (sh.c:450-493). */
  method Nulterminate(buf: array<char>, c: Cmd<Span>)
    requires InBuffer(c, buf.Length)
    modifies buf
    ensures buf[..] == Terminated(old(buf[..]), WordEnds(c))
    decreases c
  {
    ghost var mem := buf[..];
    PartsInBuffer(c, buf.Length);
    hide InBuffer;
    match c {
      case Exec(argv) =>
        TerminateArgs(buf, argv);
      case Redir(c', file, _) =>
        Nulterminate(buf, c');
        buf[file.eq] := '\0';
        assert buf[..] == Terminated(mem, WordEnds(c));
      case Pipe(l, r) =>
        Nulterminate(buf, l);
        Nulterminate(buf, r);
        TerminatedTwice(mem, WordEnds(l), WordEnds(r));
      case List(l, r) =>
        Nulterminate(buf, l);
        Nulterminate(buf, r);
        TerminatedTwice(mem, WordEnds(l), WordEnds(r));
      case Back(c') =>
        Nulterminate(buf, c');
    }
  }

  method TerminateArgs(buf: array<char>, argv: seq<Span>)
    requires InBuffer(Exec(argv), buf.Length)
    modifies buf
    ensures buf[..] == Terminated(old(buf[..]), WordEnds(Exec(argv)))
  {
    ghost var mem := buf[..];
    var i := 0;
    while i < |argv|
      invariant i <= |argv| && buf[..] == Terminated(mem, WordEnds(Exec(argv[..i])))
    {
      assert argv[i].eq in WordEnds(Exec(argv));
      ghost var ends := WordEnds(Exec(argv[..i]));
      assert WordEnds(Exec(argv[..i + 1])) == ends + {argv[i].eq} by { EndsSnoc(argv, i); }
      buf[argv[i].eq] := '\0';
      assert buf[..] == Terminated(mem, ends)[argv[i].eq := '\0'] == Terminated(mem, ends + {argv[i].eq});
      i := i + 1;
    }
    assert argv[..i] == argv;
  }

  lemma EndsSnoc(argv: seq<Span>, i: nat)
    requires i < |argv|
    ensures WordEnds(Exec(argv[..i + 1])) == WordEnds(Exec(argv[..i])) + {argv[i].eq}
  {
  }

  method Strlen(buf: array<char>) returns (n: nat)
    requires '\0' in buf[..]
    ensures n < buf.Length && buf[n] == '\0' && '\0' !in buf[..n]
  {
    n := 0;
    while buf[n] != '\0'
      invariant n < buf.Length && '\0' !in buf[..n] && '\0' in buf[n..]
      decreases buf.Length - n
    {
      assert buf[..n + 1] == buf[..n] + [buf[n]];
      assert buf[n..] == [buf[n]] + buf[n + 1..];
      n := n + 1;
    }
  }

  ghost predicate Holds(mem: string, text: string) {
    |text| < |mem| && mem[..|text|] == text && mem[|text|] == '\0' && '\0' !in text
  }

  /** parsecmd (sh.c:327-342): a panic as ParseCmd has it, or the tree, whose words, read as
      C strings from the buffer afterwards, are its tokens in the text.  So a tree comes back
      as itself, however it is written, and a text is accepted exactly if the grammar derives it
      without a command of too many words. */
  method Parsecmd(buf: array<char>) returns (r: Parsed<Cmd<Span>>, ghost text: string)
    requires '\0' in buf[..]
    modifies buf
    ensures Holds(old(buf[..]), text) && r == ParseCmd(text)
    ensures r.Ok? ==> CRead(buf[..], r.value) == Read(text, r.value)
    ensures buf[..] == Terminated(old(buf[..]), if r.Ok? then WordEnds(r.value) else {})
    ensures forall t :: Legal(t) && T.Tokens(text, 0) == T.Tokens(Print(t, 3), 0) ==>
              if Fits(t) then r.Ok? && CRead(buf[..], r.value) == t else r == Panic(TooManyArgs)
    ensures forall f :: G.Derives(f, text) ==>
              if Fits(G.Meaning(f)) then r.Ok? && CRead(buf[..], r.value) == G.Meaning(f) else r == Panic(TooManyArgs)
    ensures r.Ok? ==> exists f :: G.Derives(f, text) && CRead(buf[..], r.value) == G.Meaning(f)
  {
    hide G.Derives;
    ghost var mem := buf[..];
    var es := Strlen(buf);
    text := mem[..es];
    var parser := new Parser(buf, es);
    r := parser.Parseline();
    if r.Ok? {
      var _ := parser.Peek("");
      r := if parser.ps != es then Panic(Leftovers) else Ok(r.value, es);
    }
    forall t | Legal(t) && T.Tokens(text, 0) == T.Tokens(Print(t, 3), 0)
      ensures if Fits(t) then r.Ok? && Read(text, r.value) == t else r == Panic(TooManyArgs)
    {
      T.ParseWritten(text, t);
    }
    forall f | G.Derives(f, text)
      ensures if Fits(G.Meaning(f)) then r.Ok? && Read(text, r.value) == G.Meaning(f) else r == Panic(TooManyArgs)
    {
      G.DerivedIsParsed(text, f);
    }
    if r.Ok? {
      G.AcceptsGrammar(text);
      var c := r.value;
      EndsDelimit(text, c);
      WordsTerminated(mem, es, WordEnds(c), c);
      Nulterminate(buf, c);
    }
  }
}

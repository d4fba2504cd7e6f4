/** The grammar of the shell's commands (sh.c:327-446), and that the parser accepts exactly what it
    derives, with redirections before, between and behind the words of a command. */
module ShellGrammar {
  import opened ShellSpec
  import opened ShellTokens
  import P = ShellPrint

  /** One part of a simple command. */
  datatype Item = Arg(w: string) | File(r: Redirection<string>)

  /** A command as it is written. */
  datatype Form =
    | Simple(items: seq<Item>)
    | Block(line: Form, rs: seq<Redirection<string>>)
    | Piped(left: Form, right: Form)
    | Backed(form: Form)
    | Listed(left: Form, right: Form)

  /** What stands where parseexec (0), parsepipe (1), the '&' loop (2) or parseline (3) reads. */
  predicate Grammatical(f: Form, level: nat) {
    match f
    case Simple(_) => true
    case Block(line, _) => Grammatical(line, 3)
    case Piped(l, r) => level >= 1 && Grammatical(l, 0) && Grammatical(r, 1)
    case Backed(f') => level >= 2 && Grammatical(f', 2)
    case Listed(l, r) => level >= 3 && Grammatical(l, 2) && Grammatical(r, 3)
  }

  function RedirToks(r: Redirection<string>): seq<Tok> {
    [Mark(if r.mode.Input? then '<' else '>'), Tok.Word(r.file)]
  }

  function RedirsToks(rs: seq<Redirection<string>>): seq<Tok> {
    if rs == [] then [] else RedirToks(rs[0]) + RedirsToks(rs[1..])
  }

  function ItemToks(x: Item): seq<Tok> {
    if x.Arg? then [Tok.Word(x.w)] else RedirToks(x.r)
  }

  function ItemsToks(items: seq<Item>): seq<Tok> {
    if items == [] then [] else ItemToks(items[0]) + ItemsToks(items[1..])
  }

  function Toks(f: Form): seq<Tok> {
    match f
    case Simple(items) => ItemsToks(items)
    case Block(line, rs) => [Mark('(')] + (Toks(line) + ([Mark(')')] + RedirsToks(rs)))
    case Piped(l, r) => Toks(l) + ([Mark('|')] + Toks(r))
    case Backed(f') => Toks(f') + [Mark('&')]
    case Listed(l, r) => Toks(l) + ([Mark(';')] + Toks(r))
  }

  /** The words of a simple command, in order. */
  function Args(items: seq<Item>): seq<string> {
    if items == [] then [] else (if items[0].Arg? then [items[0].w] else []) + Args(items[1..])
  }

  /** Its redirections, in order. */
  function Files(items: seq<Item>): seq<Redirection<string>> {
    if items == [] then [] else (if items[0].File? then [items[0].r] else []) + Files(items[1..])
  }

  /** The tree of a command. */
  function Meaning(f: Form): Cmd<string> {
    match f
    case Simple(items) => Wrap(Exec(Args(items)), Files(items))
    case Block(line, rs) => Wrap(Meaning(line), rs)
    case Piped(l, r) => Pipe(Meaning(l), Meaning(r))
    case Backed(f') => Back(Meaning(f'))
    case Listed(l, r) => List(Meaning(l), Meaning(r))
  }

  // ---------- what the grammar derives is accepted ----------

  /** A simple command ends here. */
  predicate Stops(rest: seq<Tok>) {
    rest == [] || (rest[0].Mark? && ExecStop(rest[0].c))
  }

  /** The tree and the tokens behind it, or the panic for a command of too many words. */
  predicate Gives(r: Rest<Cmd<string>>, f: Form, rest: seq<Tok>) {
    r == if Fits(Meaning(f)) then Took(Meaning(f), rest) else Fails(TooManyArgs)
  }

  lemma RedirStep(x: Redirection<string>, more: seq<Tok>, done: seq<Redirection<string>>)
    ensures TakeRedirs(RedirToks(x) + more, done) == TakeRedirs(more, done + [x])
  {
    var ts := RedirToks(x) + more;
    assert ts[0] == RedirToks(x)[0] && ts[1] == Tok.Word(x.file) && ts[2..] == more;
  }

  lemma {:induction false} RedirsDerived(rs: seq<Redirection<string>>, done: seq<Redirection<string>>, rest: seq<Tok>)
    requires !StartsWith(rest, '<') && !StartsWith(rest, '>')
    ensures TakeRedirs(RedirsToks(rs) + rest, done) == Took(done + rs, rest)
    decreases |rs|
  {
    hide RedirToks;
    if rs == [] {
      assert RedirsToks(rs) + rest == rest && done + rs == done;
    } else {
      hide TakeRedirs;
      Regroup(RedirToks(rs[0]), RedirsToks(rs[1..]), rest);
      RedirStep(rs[0], RedirsToks(rs[1..]) + rest, done);
      RedirsDerived(rs[1..], done + [rs[0]], rest);
      assert done + [rs[0]] + rs[1..] == done + rs;
    }
  }

  lemma Regroup(a: seq<Tok>, b: seq<Tok>, c: seq<Tok>)
    ensures (a + b) + c == a + (b + c)
  {
  }

  /** parseredirs and then the loop of parseexec. */
  function TakeItems(ts: seq<Tok>, argv: seq<string>, rs: seq<Redirection<string>>): Rest<Cmd<string>> {
    match TakeRedirs(ts, rs)
    case Fails(f) => Fails(f)
    case Took(rs', rest) => TakeArgs(rest, argv, rs')
  }

  /** A word or a redirection is taken. */
  lemma ItemStep(x: Item, more: seq<Tok>, argv: seq<string>, rs: seq<Redirection<string>>)
    ensures TakeItems(ItemToks(x) + more, argv, rs) ==
            if x.File? then TakeItems(more, argv, rs + [x.r])
            else if |argv| + 1 >= MAXARGS then Fails(TooManyArgs) else TakeItems(more, argv + [x.w], rs)
  {
    hide TakeArgs;
    var ts := ItemToks(x) + more;
    if x.File? {
      hide TakeRedirs;
      RedirStep(x.r, more, rs);
    } else {
      assert ts[0] == Tok.Word(x.w) && ts[1..] == more;
      ArgStep(x.w, more, ts, argv, rs);
    }
  }

  lemma ArgStep(w: string, more: seq<Tok>, ts: seq<Tok>, argv: seq<string>, rs: seq<Redirection<string>>)
    requires ts != [] && ts[0] == Tok.Word(w) && ts[1..] == more
    ensures TakeArgs(ts, argv, rs) == if |argv| + 1 >= MAXARGS then Fails(TooManyArgs) else TakeItems(more, argv + [w], rs)
  {
    hide TakeRedirs;
  }

  lemma ItemStop(ts: seq<Tok>, argv: seq<string>, rs: seq<Redirection<string>>)
    requires Stops(ts)
    ensures TakeItems(ts, argv, rs) == Took(Wrap(Exec(argv), rs), ts)
  {
  }

  /** What a first item adds. */
  lemma ItemsCons(items: seq<Item>, argv: seq<string>, rs: seq<Redirection<string>>)
    requires items != []
    ensures ItemsToks(items) == ItemToks(items[0]) + ItemsToks(items[1..])
    ensures items[0].Arg? ==> argv + Args(items) == argv + [items[0].w] + Args(items[1..]) && Files(items) == Files(items[1..])
    ensures items[0].Arg? ==> |Args(items)| == 1 + |Args(items[1..])|
    ensures items[0].File? ==> rs + Files(items) == rs + [items[0].r] + Files(items[1..]) && Args(items) == Args(items[1..])
  {
    hide ItemToks;
    if items[0].Arg? {
      Shift(argv, items[0].w, Args(items[1..]));
      Nothing(Files(items[1..]));
    } else {
      Shift(rs, items[0].r, Files(items[1..]));
      Nothing(Args(items[1..]));
    }
  }

  lemma Shift<T>(a: seq<T>, x: T, b: seq<T>)
    ensures a + ([x] + b) == a + [x] + b
  {
  }

  lemma Nothing<T>(b: seq<T>)
    ensures [] + b == b
  {
  }

  /** Words and redirections in any order: the words come in their order, and the redirections in
      theirs. */
  lemma {:induction false} ItemsDerived(items: seq<Item>, argv: seq<string>, rs: seq<Redirection<string>>, rest: seq<Tok>)
    requires |argv| < MAXARGS && Stops(rest)
    ensures TakeItems(ItemsToks(items) + rest, argv, rs) ==
            if |argv| + |Args(items)| < MAXARGS then Took(Wrap(Exec(argv + Args(items)), rs + Files(items)), rest) else Fails(TooManyArgs)
    decreases |items|
  {
    hide TakeItems;
    hide ItemToks;
    if items == [] {
      assert ItemsToks(items) + rest == rest && argv + Args(items) == argv && rs + Files(items) == rs;
      ItemStop(rest, argv, rs);
    } else {
      var x, more := items[0], items[1..];
      ItemsCons(items, argv, rs);
      hide ItemsToks;
      hide Args;
      hide Files;
      Regroup(ItemToks(x), ItemsToks(more), rest);
      ItemStep(x, ItemsToks(more) + rest, argv, rs);
      if x.File? {
        ItemsDerived(more, argv, rs + [x.r], rest);
      } else if |argv| + 1 < MAXARGS {
        ItemsDerived(more, argv + [x.w], rs, rest);
      }
    }
  }

  lemma SimpleDerived(items: seq<Item>, rest: seq<Tok>)
    requires Stops(rest)
    ensures Gives(TakeExec(ItemsToks(items) + rest), Simple(items), rest)
  {
    hide TakeRedirs;
    hide TakeArgs;
    var ts := ItemsToks(items) + rest;
    ItemsDerived(items, [], [], rest);
    P.FitsWrap(Exec(Args(items)), Files(items));
    assert [] + Args(items) == Args(items) && [] + Files(items) == Files(items);
    assert !StartsWith(ts, '(') by {
      if items != [] {
        assert ts[0] == ItemToks(items[0])[0];
      } else {
        assert ts == rest;
      }
    }
  }

  lemma ExecDerived(f: Form, rest: seq<Tok>)
    requires Grammatical(f, 0) && Stops(rest)
    ensures Gives(TakeExec(Toks(f) + rest), f, rest)
    decreases f, 1
  {
    if f.Simple? {
      SimpleDerived(f.items, rest);
    } else {
      BlockDerived(f, rest);
    }
  }

  lemma BlockDerived(f: Form, rest: seq<Tok>)
    requires f.Block? && Grammatical(f, 0) && Stops(rest)
    ensures Gives(TakeExec(Toks(f) + rest), f, rest)
    decreases f, 0
  {
    hide TakeRedirs;
    hide TakeLine;
    hide RedirsToks;
    var ts := Toks(f) + rest;
    var tail := [Mark(')')] + (RedirsToks(f.rs) + rest);
    assert ts[0] == Mark('(') && ts[1..] == Toks(f.line) + tail;
    LineDerived(f.line, tail);
    assert tail[1..] == RedirsToks(f.rs) + rest;
    RedirsDerived(f.rs, [], rest);
    assert [] + f.rs == f.rs;
    P.FitsWrap(Meaning(f.line), f.rs);
  }

  /** What comes behind the first of two commands. */
  lemma Behind(l: Form, c: char, r: Form, rest: seq<Tok>) returns (tail: seq<Tok>)
    ensures StartsWith(tail, c) && tail[1..] == Toks(r) + rest
    ensures c == '|' ==> Toks(Piped(l, r)) + rest == Toks(l) + tail
    ensures c == ';' ==> Toks(Listed(l, r)) + rest == Toks(l) + tail
  {
    tail := [Mark(c)] + (Toks(r) + rest);
    assert (Toks(l) + ([Mark(c)] + Toks(r))) + rest == Toks(l) + tail;
  }

  lemma PipeStep(ts: seq<Tok>)
    ensures var l := TakeExec(ts);
            TakePipe(ts) == if l.Fails? || !StartsWith(l.rest, '|') then l
                            else var r := TakePipe(l.rest[1..]); if r.Fails? then r else Took(Pipe(l.value, r.value), r.rest)
  {
    hide TakeExec;
  }

  lemma PipeDerived(f: Form, rest: seq<Tok>)
    requires Grammatical(f, 1) && Stops(rest) && !StartsWith(rest, '|')
    ensures Gives(TakePipe(Toks(f) + rest), f, rest)
    decreases f, 2
  {
    hide TakeExec;
    hide TakePipe;
    hide Toks;
    hide Wrap;
    PipeStep(Toks(f) + rest);
    if f.Piped? {
      var tail := Behind(f.left, '|', f.right, rest);
      ExecDerived(f.left, tail);
      PipeDerived(f.right, rest);
    } else {
      ExecDerived(f, rest);
    }
  }

  /** With the tree of `f` in hand, the '&' loop is at `rest`. */
  lemma BacksDerived(f: Form, rest: seq<Tok>)
    requires Grammatical(f, 2) && Stops(rest) && !StartsWith(rest, '|')
    ensures var r := TakePipe(Toks(f) + rest);
            if Fits(Meaning(f)) then r.Took? && TakeBacks(r.rest, r.value) == TakeBacks(rest, Meaning(f)) else r == Fails(TooManyArgs)
    decreases f, 3
  {
    hide TakePipe;
    if f.Backed? {
      var tail := [Mark('&')] + rest;
      assert Toks(f) + rest == Toks(f.form) + tail && tail[1..] == rest;
      BacksDerived(f.form, tail);
    } else {
      PipeDerived(f, rest);
    }
  }

  lemma LineStep(ts: seq<Tok>)
    ensures var c := TakePipe(ts);
            TakeLine(ts) == if c.Fails? then c
                            else
                              var b := TakeBacks(c.rest, c.value);
                              if !StartsWith(b.rest, ';') then b
                              else var r := TakeLine(b.rest[1..]); if r.Fails? then r else Took(List(b.value, r.value), r.rest)
  {
    hide TakePipe;
    hide TakeBacks;
  }

  lemma NoBacks(rest: seq<Tok>, c: Cmd<string>)
    requires !StartsWith(rest, '&')
    ensures TakeBacks(rest, c) == Took(c, rest)
  {
  }

  lemma LineDerived(f: Form, rest: seq<Tok>)
    requires Grammatical(f, 3) && (rest == [] || rest[0] == Mark(')'))
    ensures Gives(TakeLine(Toks(f) + rest), f, rest)
    decreases f, 4
  {
    hide TakePipe;
    hide TakeBacks;
    hide TakeLine;
    hide Toks;
    hide Wrap;
    LineStep(Toks(f) + rest);
    if f.Listed? {
      var tail := Behind(f.left, ';', f.right, rest);
      BacksDerived(f.left, tail);
      NoBacks(tail, Meaning(f.left));
      LineDerived(f.right, rest);
    } else {
      BacksDerived(f, rest);
      NoBacks(rest, Meaning(f));
    }
  }

  // ---------- what is accepted the grammar derives ----------

  lemma {:induction false} RedirsAccepted(ts: seq<Tok>, done: seq<Redirection<string>>) returns (rs: seq<Redirection<string>>)
    requires TakeRedirs(ts, done).Took?
    ensures var r := TakeRedirs(ts, done); r.value == done + rs && ts == RedirsToks(rs) + r.rest
    decreases |ts|
  {
    hide TakeRedirs;
    hide RedirToks;
    if StartsWith(ts, '<') || StartsWith(ts, '>') {
      var x := LeadingRedir(ts, done);
      RedirStep(x, ts[2..], done);
      var more := RedirsAccepted(ts[2..], done + [x]);
      rs := [x] + more;
      assert rs[1..] == more && done + rs == done + [x] + more;
      Regroup(RedirToks(x), RedirsToks(more), TakeRedirs(ts, done).rest);
    } else {
      rs := [];
      NoRedir(ts, done);
    }
  }

  lemma LeadingRedir(ts: seq<Tok>, done: seq<Redirection<string>>) returns (x: Redirection<string>)
    requires TakeRedirs(ts, done).Took? && (StartsWith(ts, '<') || StartsWith(ts, '>'))
    ensures |ts| >= 2 && ts == RedirToks(x) + ts[2..]
  {
    x := Redirection(ts[1].w, if ts[0].c == '<' then Input else Output);
  }

  lemma NoRedir(ts: seq<Tok>, done: seq<Redirection<string>>)
    requires !StartsWith(ts, '<') && !StartsWith(ts, '>')
    ensures TakeRedirs(ts, done) == Took(done, ts) && done + [] == done && RedirsToks([]) + ts == ts
  {
  }

  lemma FirstItem(ts: seq<Tok>, argv: seq<string>, rs: seq<Redirection<string>>) returns (x: Item)
    requires TakeItems(ts, argv, rs).Took? && !Stops(ts)
    ensures |ItemToks(x)| <= |ts| && ts == ItemToks(x) + ts[|ItemToks(x)|..] && ItemToks(x) != []
  {
    if StartsWith(ts, '<') || StartsWith(ts, '>') {
      x := File(Redirection(ts[1].w, if ts[0].c == '<' then Input else Output));
    } else {
      x := Arg(ts[0].w);
    }
  }

  lemma {:induction false} ItemsAccepted(ts: seq<Tok>, argv: seq<string>, rs: seq<Redirection<string>>) returns (items: seq<Item>)
    requires TakeItems(ts, argv, rs).Took?
    ensures var r := TakeItems(ts, argv, rs);
            r.value == Wrap(Exec(argv + Args(items)), rs + Files(items)) && ts == ItemsToks(items) + r.rest
    decreases |ts|
  {
    hide TakeItems;
    hide ItemToks;
    if Stops(ts) {
      items := [];
      ItemStop(ts, argv, rs);
      assert argv + Args([]) == argv && rs + Files([]) == rs && ItemsToks([]) + ts == ts;
    } else {
      hide ItemsToks;
      hide Args;
      hide Files;
      var x := FirstItem(ts, argv, rs);
      var tail := ts[|ItemToks(x)|..];
      ItemStep(x, tail, argv, rs);
      var more;
      if x.File? {
        more := ItemsAccepted(tail, argv, rs + [x.r]);
      } else {
        more := ItemsAccepted(tail, argv + [x.w], rs);
      }
      items := [x] + more;
      assert items[0] == x && items[1..] == more;
      ItemsCons(items, argv, rs);
      Regroup(ItemToks(x), ItemsToks(more), TakeItems(ts, argv, rs).rest);
    }
  }

  lemma ExecAccepted(ts: seq<Tok>) returns (f: Form)
    requires TakeExec(ts).Took?
    ensures Grammatical(f, 0) && TakeExec(ts).value == Meaning(f) && ts == Toks(f) + TakeExec(ts).rest
    decreases |ts|, 1
  {
    if StartsWith(ts, '(') {
      f := BlockAccepted(ts);
    } else {
      var items := ItemsAccepted(ts, [], []);
      assert [] + Args(items) == Args(items) && [] + Files(items) == Files(items);
      f := Simple(items);
    }
  }

  lemma BlockAccepted(ts: seq<Tok>) returns (f: Form)
    requires StartsWith(ts, '(') && TakeBlock(ts).Took?
    ensures Grammatical(f, 0) && TakeBlock(ts).value == Meaning(f) && ts == Toks(f) + TakeBlock(ts).rest
    decreases |ts|, 0
  {
    hide TakeLine;
    hide TakeRedirs;
    hide RedirsToks;
    var r := TakeLine(ts[1..]);
    var line := LineAccepted(ts[1..]);
    var rs := RedirsAccepted(r.rest[1..], []);
    assert [] + rs == rs;
    f := Block(line, rs);
    assert r.rest == [Mark(')')] + r.rest[1..] && ts == [Mark('(')] + ts[1..];
  }

  lemma PipeAccepted(ts: seq<Tok>) returns (f: Form)
    requires TakePipe(ts).Took?
    ensures Grammatical(f, 1) && TakePipe(ts).value == Meaning(f) && ts == Toks(f) + TakePipe(ts).rest
    decreases |ts|, 2
  {
    hide TakeExec;
    hide Toks;
    var l := TakeExec(ts);
    var left := ExecAccepted(ts);
    if StartsWith(l.rest, '|') {
      var right := PipeAccepted(l.rest[1..]);
      f := Piped(left, right);
      Joined(ts, left, l.rest, '|', right, TakePipe(ts).rest);
    } else {
      Higher(left, 0, 1);
      f := left;
    }
  }

  /** Two commands with a mark between them. */
  lemma Joined(ts: seq<Tok>, l: Form, tail: seq<Tok>, c: char, r: Form, rest: seq<Tok>)
    requires ts == Toks(l) + tail && StartsWith(tail, c) && tail[1..] == Toks(r) + rest
    ensures c == '|' ==> ts == Toks(Piped(l, r)) + rest
    ensures c == ';' ==> ts == Toks(Listed(l, r)) + rest
  {
    assert tail == [Mark(c)] + tail[1..];
    assert ts == (Toks(l) + ([Mark(c)] + Toks(r))) + rest;
  }

  lemma {:induction false} BacksAccepted(ts: seq<Tok>, f: Form) returns (f': Form)
    requires Grammatical(f, 2)
    ensures var r := TakeBacks(ts, Meaning(f)); Grammatical(f', 2) && r.value == Meaning(f') && Toks(f) + ts == Toks(f') + r.rest
    decreases |ts|
  {
    if StartsWith(ts, '&') {
      f' := BacksAccepted(ts[1..], Backed(f));
      assert ts == [Mark('&')] + ts[1..];
    } else {
      f' := f;
    }
  }

  lemma {:induction false} Higher(f: Form, level: nat, level': nat)
    requires Grammatical(f, level) && level <= level'
    ensures Grammatical(f, level')
  {
  }

  lemma LineAccepted(ts: seq<Tok>) returns (f: Form)
    requires TakeLine(ts).Took?
    ensures Grammatical(f, 3) && TakeLine(ts).value == Meaning(f) && ts == Toks(f) + TakeLine(ts).rest
    decreases |ts|, 3
  {
    hide TakePipe;
    hide TakeBacks;
    hide Toks;
    var c := TakePipe(ts);
    var first := PipeAccepted(ts);
    Higher(first, 1, 2);
    f := BacksAccepted(c.rest, first);
    var b := TakeBacks(c.rest, c.value);
    Higher(f, 2, 3);
    if StartsWith(b.rest, ';') {
      var right := LineAccepted(b.rest[1..]);
      Joined(ts, f, b.rest, ';', right, TakeLine(ts).rest);
      f := Listed(f, right);
    }
  }

  // ---------- the parser ----------

  /** `f` is a way to write the text. */
  predicate Derives(f: Form, text: string) {
    Grammatical(f, 3) && Tokens(text, 0) == Toks(f)
  }

  /** A text that the grammar derives is parsed to its tree, or panics if a command in it has too
      many words. */
  lemma DerivedIsParsed(text: string, f: Form)
    requires '\0' !in text && Derives(f, text)
    ensures var r := ParseCmd(text); if Fits(Meaning(f)) then r.Ok? && Read(text, r.value) == Meaning(f) else r == Panic(TooManyArgs)
  {
    hide ParseCmd;
    hide TakeLine;
    hide Tokens;
    CmdTaken(text);
    LineDerived(f, []);
    assert Toks(f) + [] == Toks(f);
  }

  /** parseexec on words and redirections in any order: the command of the words, in their order,
      with the redirections in theirs around it. */
  lemma SimpleIsParsed(text: string, p: nat, items: seq<Item>, rest: seq<Tok>)
    requires '\0' !in text && p <= |text| && Tokens(text, p) == ItemsToks(items) + rest && Stops(rest)
    ensures var r := ParseExec(text, p);
            if |Args(items)| < MAXARGS then
              r.Ok? && Read(text, r.value) == Wrap(Exec(Args(items)), Files(items)) && r.pos <= |text| && Tokens(text, r.pos) == rest
            else r == Panic(TooManyArgs)
  {
    hide ParseExec;
    hide TakeExec;
    hide Tokens;
    ExecTaken(text, p);
    SimpleDerived(items, rest);
    P.FitsWrap(Exec(Args(items)), Files(items));
  }

  /** The parser accepts exactly the texts that the grammar derives without a command of too many
      words, and gives their trees. */
  lemma AcceptsGrammar(text: string)
    requires '\0' !in text
    ensures ParseCmd(text).Ok? <==> exists f :: Derives(f, text) && Fits(Meaning(f))
    ensures ParseCmd(text).Ok? ==> exists f :: Derives(f, text) && Read(text, ParseCmd(text).value) == Meaning(f)
  {
    hide ParseCmd;
    hide TakeLine;
    hide Tokens;
    hide Derives;
    if ParseCmd(text).Ok? {
      var f := ParsedIsDerived(text);
      P.ReadLegal(text, ParseCmd(text).value);
    }
    if f :| Derives(f, text) && Fits(Meaning(f)) {
      DerivedIsParsed(text, f);
    }
  }

  lemma ParsedIsDerived(text: string) returns (f: Form)
    requires '\0' !in text && ParseCmd(text).Ok?
    ensures Derives(f, text) && Read(text, ParseCmd(text).value) == Meaning(f)
  {
    hide ParseCmd;
    hide TakeLine;
    hide Tokens;
    CmdTaken(text);
    var ts := Tokens(text, 0);
    f := LineAccepted(ts);
    assert Toks(f) + [] == Toks(f);
  }
}

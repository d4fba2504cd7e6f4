/** The shell's command language (sh.c:262-493): the lexer and the parser as functions
    of the text and the cursor. */
module ShellSpec {
  const MAXARGS := 10

  /** A token of the text, from `q` up to `eq`. */
  datatype Span = Span(q: nat, eq: nat)

  /** O_RDONLY on 0, or O_WRONLY|O_CREATE on 1: '>' and '>>' are the same. */
  datatype Mode = Input | Output

  datatype Cmd<W> =
    | Exec(argv: seq<W>)
    | Redir(cmd: Cmd<W>, file: W, mode: Mode)
    | Pipe(left: Cmd<W>, right: Cmd<W>)
    | List(left: Cmd<W>, right: Cmd<W>)
    | Back(cmd: Cmd<W>)

  datatype Fault = Syntax | TooManyArgs | MissingFile | MissingParen | Leftovers

  /** What a parse function leaves: its value and the cursor, or a panic. */
  datatype Parsed<V> = Ok(value: V, pos: nat) | Panic(fault: Fault)

  datatype Redirection<W> = Redirection(file: W, mode: Mode)

  // ---------- the lexer ----------

  predicate Space(c: char) {
    c == ' ' || c == '\t' || c == '\r' || c == '\n' || c == '\U{000B}'
  }

  predicate Symbol(c: char) {
    c == '<' || c == '|' || c == '>' || c == '&' || c == ';' || c == '(' || c == ')'
  }

  predicate WordChar(c: char) {
    !Space(c) && !Symbol(c)
  }

  predicate RedirMark(c: char) {
    c == '<' || c == '>'
  }

  predicate ExecStop(c: char) {
    c == '|' || c == ')' || c == '&' || c == ';'
  }

  /** The byte at a position; the text ends in a NUL. */
  function CharAt(text: string, p: nat): char {
    if p < |text| then text[p] else '\0'
  }

  function Skip(text: string, p: nat): (r: nat)
    requires p <= |text|
    ensures p <= r <= |text| && (r < |text| ==> !Space(text[r]))
    ensures forall i :: p <= i < r ==> Space(text[i])
    decreases |text| - p
  {
    if p < |text| && Space(text[p]) then Skip(text, p + 1) else p
  }

  function WordEnd(text: string, p: nat): (r: nat)
    requires p <= |text|
    ensures p <= r <= |text| && (r < |text| ==> !WordChar(text[r]))
    ensures forall i :: p <= i < r ==> WordChar(text[i])
    decreases |text| - p
  {
    if p < |text| && WordChar(text[p]) then WordEnd(text, p + 1) else p
  }

  /** gettoken: the kind is the symbol, 'a' for a word, '+' for '>>', NUL at the end. */
  datatype Token = Token(kind: char, span: Span, next: nat)

  /** A word is as long as it can be. */
  ghost predicate WordSpan(text: string, s: Span) {
    && s.q < s.eq <= |text|
    && (forall i :: s.q <= i < s.eq ==> WordChar(text[i]))
    && (s.eq < |text| ==> !WordChar(text[s.eq]))
  }

  function GetToken(text: string, p: nat): (t: Token)
    requires p <= |text|
    ensures p <= t.next <= |text| && (t.next < |text| ==> !Space(text[t.next]))
    ensures t.kind == 'a' ==> WordSpan(text, t.span) && p < t.next
    ensures Symbol(CharAt(text, p)) ==> p < t.next
  {
    var q := Skip(text, p);
    var c := CharAt(text, q);
    if c == '\0' then
      Token(c, Span(q, q), q)
    else if c == '>' && CharAt(text, q + 1) == '>' then
      Token('+', Span(q, q + 2), Skip(text, q + 2))
    else if Symbol(c) then
      Token(c, Span(q, q + 1), Skip(text, q + 1))
    else
      var e := WordEnd(text, q);
      Token('a', Span(q, e), Skip(text, e))
  }

  // ---------- the parser ----------

  function Wrap<W>(c: Cmd<W>, rs: seq<Redirection<W>>): Cmd<W>
    decreases |rs|
  {
    if rs == [] then c else Redir(Wrap(c, rs[..|rs| - 1]), rs[|rs| - 1].file, rs[|rs| - 1].mode)
  }

  ghost predicate WordSpans(text: string, c: Cmd<Span>)
    decreases c
  {
    match c
    case Exec(argv) => forall i :: 0 <= i < |argv| ==> WordSpan(text, argv[i])
    case Redir(c', file, _) => WordSpan(text, file) && WordSpans(text, c')
    case Pipe(l, r) => WordSpans(text, l) && WordSpans(text, r)
    case List(l, r) => WordSpans(text, l) && WordSpans(text, r)
    case Back(c') => WordSpans(text, c')
  }

  /** No command has more arguments than an execcmd holds. */
  predicate Fits<W>(c: Cmd<W>)
    decreases c
  {
    match c
    case Exec(argv) => |argv| < MAXARGS
    case Redir(c', _, _) => Fits(c')
    case Pipe(l, r) => Fits(l) && Fits(r)
    case List(l, r) => Fits(l) && Fits(r)
    case Back(c') => Fits(c')
  }

  ghost predicate Sound(text: string, c: Cmd<Span>) {
    WordSpans(text, c) && Fits(c)
  }

  ghost predicate FileSpans(text: string, rs: seq<Redirection<Span>>) {
    forall i :: 0 <= i < |rs| ==> WordSpan(text, rs[i].file)
  }

  lemma {:induction false} WrapSpans(text: string, c: Cmd<Span>, rs: seq<Redirection<Span>>)
    requires Sound(text, c) && FileSpans(text, rs)
    ensures Sound(text, Wrap(c, rs))
    decreases |rs|
  {
    if rs != [] { WrapSpans(text, c, rs[..|rs| - 1]); }
  }

  function ParseRedir(text: string, p: nat): (r: Parsed<Redirection<Span>>)
    requires p <= |text|
    ensures r.Ok? ==> p < r.pos <= |text| && WordSpan(text, r.value.file)
  {
    var t := GetToken(text, p);
    var f := GetToken(text, t.next);
    if f.kind != 'a' then Panic(MissingFile) else Ok(Redirection(f.span, if t.kind == '<' then Input else Output), f.next)
  }

  /** The loop of parseredirs (sh.c:380-395), with the redirections found so far. */
  function ParseRedirs(text: string, p: nat, rs: seq<Redirection<Span>>): (r: Parsed<seq<Redirection<Span>>>)
    requires p <= |text| && FileSpans(text, rs)
    ensures r.Ok? ==> p <= r.pos <= |text| && FileSpans(text, r.value)
    decreases |text| - p
  {
    var s := Skip(text, p);
    if !RedirMark(CharAt(text, s)) then
      Ok(rs, s)
    else
      match ParseRedir(text, s)
      case Panic(f) => Panic(f)
      case Ok(x, p') => ParseRedirs(text, p', rs + [x])
  }

  /** The loop of parseexec (sh.c:431-445). */
  function ParseArgs(text: string, p: nat, argv: seq<Span>, rs: seq<Redirection<Span>>): (r: Parsed<Cmd<Span>>)
    requires p <= |text| && Sound(text, Exec(argv)) && FileSpans(text, rs)
    ensures r.Ok? ==> p <= r.pos <= |text| && Sound(text, r.value)
    decreases |text| - p
  {
    var s := Skip(text, p);
    WrapSpans(text, Exec(argv), rs);
    if ExecStop(CharAt(text, s)) then
      Ok(Wrap(Exec(argv), rs), s)
    else
      var t := GetToken(text, s);
      if t.kind == '\0' then Ok(Wrap(Exec(argv), rs), t.next)
      else if t.kind != 'a' then Panic(Syntax)
      else if |argv| + 1 >= MAXARGS then Panic(TooManyArgs)
      else
        match ParseRedirs(text, t.next, rs)
        case Panic(f) => Panic(f)
        case Ok(rs', p') => ParseArgs(text, p', argv + [t.span], rs')
  }

  function ParseExec(text: string, p: nat): (r: Parsed<Cmd<Span>>)
    requires p <= |text|
    ensures r.Ok? ==> p <= r.pos <= |text| && Sound(text, r.value)
    decreases |text| - p, 1
  {
    var s := Skip(text, p);
    if CharAt(text, s) == '(' then
      ParseBlock(text, s)
    else
      match ParseRedirs(text, s, [])
      case Panic(f) => Panic(f)
      case Ok(rs, p') => ParseArgs(text, p', [], rs)
  }

  function ParseBlock(text: string, p: nat): (r: Parsed<Cmd<Span>>)
    requires p < |text| && text[p] == '('
    ensures r.Ok? ==> p <= r.pos <= |text| && Sound(text, r.value)
    decreases |text| - p, 0
  {
    match ParseLine(text, GetToken(text, p).next)
    case Panic(f) => Panic(f)
    case Ok(c, p') =>
      var s := Skip(text, p');
      if CharAt(text, s) != ')' then Panic(MissingParen)
      else
        match ParseRedirs(text, GetToken(text, s).next, [])
        case Panic(f) => Panic(f)
        case Ok(rs, p'') =>
          WrapSpans(text, c, rs);
          Ok(Wrap(c, rs), p'')
  }

  function ParsePipe(text: string, p: nat): (r: Parsed<Cmd<Span>>)
    requires p <= |text|
    ensures r.Ok? ==> p <= r.pos <= |text| && Sound(text, r.value)
    decreases |text| - p, 2
  {
    match ParseExec(text, p)
    case Panic(f) => Panic(f)
    case Ok(l, p') =>
      var s := Skip(text, p');
      if CharAt(text, s) != '|' then Ok(l, s)
      else
        match ParsePipe(text, GetToken(text, s).next)
        case Panic(f) => Panic(f)
        case Ok(right, p'') => Ok(Pipe(l, right), p'')
  }

  /** The '&' loop of parseline (sh.c:350-353). */
  function ParseBacks(text: string, p: nat, c: Cmd<Span>): (r: Parsed<Cmd<Span>>)
    requires p <= |text| && Sound(text, c)
    ensures r.Ok? && p <= r.pos <= |text| && Sound(text, r.value)
    decreases |text| - p
  {
    var s := Skip(text, p);
    if CharAt(text, s) != '&' then Ok(c, s) else ParseBacks(text, GetToken(text, s).next, Back(c))
  }

  function ParseLine(text: string, p: nat): (r: Parsed<Cmd<Span>>)
    requires p <= |text|
    ensures r.Ok? ==> p <= r.pos <= |text| && Sound(text, r.value)
    decreases |text| - p, 3
  {
    match ParsePipe(text, p)
    case Panic(f) => Panic(f)
    case Ok(c, p') =>
      var b := ParseBacks(text, p', c);
      var s := Skip(text, b.pos);
      if CharAt(text, s) != ';' then Ok(b.value, s)
      else
        match ParseLine(text, GetToken(text, s).next)
        case Panic(f) => Panic(f)
        case Ok(right, p'') => Ok(List(b.value, right), p'')
  }

  /** parsecmd up to nulterminate (sh.c:327-340). */
  function ParseCmd(text: string): (r: Parsed<Cmd<Span>>)
    ensures r.Ok? ==> r.pos == |text| && Sound(text, r.value)
  {
    match ParseLine(text, 0)
    case Panic(f) => Panic(f)
    case Ok(c, p) => if Skip(text, p) != |text| then Panic(Leftovers) else Ok(c, |text|)
  }

  // ---------- the words of a tree ----------

  function Word(text: string, s: Span): string {
    if s.q <= s.eq <= |text| then text[s.q..s.eq] else ""
  }

  function Words(text: string, argv: seq<Span>): (r: seq<string>)
    ensures |r| == |argv| && forall i :: 0 <= i < |argv| ==> r[i] == Word(text, argv[i])
  {
    seq(|argv|, i requires 0 <= i < |argv| => Word(text, argv[i]))
  }

  /** The tree with each span replaced by the text in it. */
  function Read(text: string, c: Cmd<Span>): Cmd<string>
    decreases c
  {
    match c
    case Exec(argv) => Exec(Words(text, argv))
    case Redir(c', file, mode) => Redir(Read(text, c'), Word(text, file), mode)
    case Pipe(l, r) => Pipe(Read(text, l), Read(text, r))
    case List(l, r) => List(Read(text, l), Read(text, r))
    case Back(c') => Back(Read(text, c'))
  }
}

/** The console's line editor as edits of one string (console.c:440-522, 533-823): what each
    key does to the line, the cursor, the selection, the clipboard and the undo stack, and
    what undo gives back. */
module LineEdit {
  const INPUT_BUF := 128
  const UNDO_BUF := 128

  /** Positions count from the start of the line. */
  datatype Op = Insert(pos: int, ch: char) | Delete(pos: int, ch: char)

  datatype Line = Line(text: string, cur: nat, ops: seq<Op>)

  /** A full undo stack keeps what it has. */
  function Record(ops: seq<Op>, op: Op): seq<Op> {
    if |ops| < UNDO_BUF then ops + [op] else ops
  }

  function InsertKey(s: Line, ch: char): (r: Line)
    requires s.cur <= |s.text|
    ensures |r.text| == |s.text| + 1 && r.cur == s.cur + 1
  {
    Line(s.text[..s.cur] + [ch] + s.text[s.cur..], s.cur + 1, Record(s.ops, Insert(s.cur, ch)))
  }

  function BackspaceKey(s: Line): (r: Line)
    requires s.cur <= |s.text|
    ensures r.cur <= |r.text|
  {
    if s.cur == 0 then s
    else Line(s.text[..s.cur - 1] + s.text[s.cur..], s.cur - 1, Record(s.ops, Delete(s.cur - 1, s.text[s.cur - 1])))
  }

  /** As many of the deletions of text[a..b] as the stack has room for, in order. */
  function RecordDeletes(ops: seq<Op>, text: string, a: nat, b: nat): seq<Op>
    requires a <= b <= |text|
    decreases b - a
  {
    if a == b then ops else RecordDeletes(Record(ops, Delete(a, text[a])), text, a + 1, b)
  }

  function DeleteSpan(s: Line, a: nat, b: nat): (r: Line)
    requires a <= b <= |s.text| && s.cur <= |s.text|
    ensures r.cur <= |r.text|
  {
    if a == b then s
    else Line(s.text[..a] + s.text[b..], a, RecordDeletes(s.ops, s.text, a, b))
  }

  /** An insertion is taken out again if its place is still in the line; the record of a
      deletion is dropped. */
  function UndoKey(s: Line): (r: Line)
    requires s.cur <= |s.text|
    ensures r.cur <= |r.text|
  {
    if s.ops == [] then s
    else
      var op, ops := s.ops[|s.ops| - 1], s.ops[..|s.ops| - 1];
      if op.Insert? && 0 <= op.pos < |s.text| then Line(s.text[..op.pos] + s.text[op.pos + 1..], op.pos, ops)
      else s.(ops := ops)
  }

  function MoveTo(s: Line, to: nat): (r: Line)
    ensures r.cur <= |r.text|
  {
    s.(cur := if to <= |s.text| then to else |s.text|)
  }

  // ---------- paste ----------

  /** The clipboard is typed character by character while the line is shorter than `room`. */
  function PasteKeys(s: Line, clip: string, room: nat): (r: Line)
    requires s.cur <= |s.text|
    ensures r.cur <= |r.text|
    decreases |clip|
  {
    if clip == [] then s
    else PasteKeys(if |s.text| < room then InsertKey(s, clip[0]) else s, clip[1..], room)
  }

  function Spliced(s: Line, clip: string): string
    requires s.cur <= |s.text|
  {
    s.text[..s.cur] + clip + s.text[s.cur..]
  }

  /** How much of the clipboard fits. */
  function Taken(s: Line, clip: string, room: nat): (m: nat)
    ensures m <= |clip|
  {
    if |s.text| + |clip| <= room then |clip| else if |s.text| <= room then room - |s.text| else 0
  }

  lemma SpliceNothing(s: Line)
    requires s.cur <= |s.text|
    ensures Spliced(s, "") == s.text
  {
  }

  lemma SpliceInsert(s: Line, ch: char, clip: string)
    requires s.cur <= |s.text|
    ensures Spliced(InsertKey(s, ch), clip) == Spliced(s, [ch] + clip)
  {
  }

  /** It lands at the cursor in order, as much of it as fits. */
  lemma {:induction false} PasteIsSplice(s: Line, clip: string, room: nat)
    requires s.cur <= |s.text|
    ensures PasteKeys(s, clip, room).text == Spliced(s, clip[..Taken(s, clip, room)])
    ensures PasteKeys(s, clip, room).cur == s.cur + Taken(s, clip, room)
    decreases |clip|
  {
    hide InsertKey;
    hide Spliced;
    SpliceNothing(s);
    if clip == [] {
    } else if |s.text| < room {
      var s', m := InsertKey(s, clip[0]), Taken(s, clip, room);
      PasteIsSplice(s', clip[1..], room);
      SpliceInsert(s, clip[0], clip[1..][..m - 1]);
      assert clip[..m] == [clip[0]] + clip[1..][..m - 1];
    } else {
      PasteIsSplice(s, clip[1..], room);
      assert clip[1..][..0] == clip[..0] == "";
    }
  }

  // ---------- words ----------

  predicate Blank(ch: char) {
    ch == ' ' || ch == '\t' || ch == '\n' || ch == '\U{000B}'
  }

  function BackOverBlanks(text: string, k: nat): (r: nat)
    requires k < |text|
    ensures r <= k && (forall i :: r < i <= k ==> Blank(text[i])) && (r > 0 ==> !Blank(text[r]))
  {
    if k > 0 && Blank(text[k]) then BackOverBlanks(text, k - 1) else k
  }

  function BackOverWord(text: string, k: nat): (r: nat)
    requires k <= |text|
    ensures r <= k && (forall i :: r <= i < k ==> !Blank(text[i])) && (r > 0 ==> Blank(text[r - 1]))
  {
    if k > 0 && !Blank(text[k - 1]) then BackOverWord(text, k - 1) else k
  }

  /** Where the word before the cursor starts. */
  function WordStart(text: string, cur: nat): (k: nat)
    requires cur <= |text|
    ensures k <= |text|
  {
    if cur == 0 then 0 else BackOverWord(text, BackOverBlanks(text, cur - 1))
  }

  function OverWord(text: string, k: nat): (r: nat)
    requires k <= |text|
    ensures k <= r <= |text| && (forall i :: k <= i < r ==> !Blank(text[i])) && (r < |text| ==> Blank(text[r]))
    decreases |text| - k
  {
    if k < |text| && !Blank(text[k]) then OverWord(text, k + 1) else k
  }

  function OverBlanks(text: string, k: nat): (r: nat)
    requires k <= |text|
    ensures k <= r <= |text| && (forall i :: k <= i < r ==> Blank(text[i])) && (r < |text| ==> !Blank(text[r]))
    decreases |text| - k
  {
    if k < |text| && Blank(text[k]) then OverBlanks(text, k + 1) else k
  }

  /** Where the next word starts, or the cursor if there is none. */
  function NextWord(text: string, cur: nat): (k: nat)
    requires cur <= |text|
    ensures k <= |text|
  {
    var k := OverBlanks(text, OverWord(text, cur));
    if k < |text| then k else cur
  }

  predicate BeginsWord(text: string, i: nat) {
    i < |text| && !Blank(text[i]) && (i > 0 ==> Blank(text[i - 1]))
  }

  /** Ctrl-A goes to the last beginning of a word before the cursor, or to the start of the line. */
  lemma WordStartIs(text: string, cur: nat)
    requires cur <= |text|
    ensures var k := WordStart(text, cur);
            if exists i: nat :: i < cur && BeginsWord(text, i) then
              k < cur && BeginsWord(text, k) && forall i: nat :: k < i < cur ==> !BeginsWord(text, i)
            else k == 0
  {
    if cur > 0 {
      var m := BackOverBlanks(text, cur - 1);
      var k := WordStart(text, cur);
      forall i: nat | k < i < cur
        ensures !BeginsWord(text, i)
      {
        assert i <= m ==> !Blank(text[i - 1]);
      }
      assert !BeginsWord(text, k) ==> k == 0;
    }
  }

  /** Ctrl-D goes to the next beginning of a word, if there is one. */
  lemma NextWordIs(text: string, cur: nat)
    requires cur <= |text|
    ensures var k := NextWord(text, cur);
            if exists i: nat :: cur < i && BeginsWord(text, i) then
              cur < k && BeginsWord(text, k) && forall i: nat :: cur < i < k ==> !BeginsWord(text, i)
            else k == cur
  {
    var m := OverWord(text, cur);
    var k := OverBlanks(text, m);
    forall i: nat | cur < i < k
      ensures !BeginsWord(text, i)
    {
      assert i < m ==> !Blank(text[i - 1]);
    }
    assert k < |text| ==> k > m && BeginsWord(text, k);
  }

  // ---------- selections ----------

  /** input.selecting, sel_start and sel_end: places in the ring, or -1. */
  datatype Selection = Selection(on: bool, start: int, end: int)

  predicate Finished(sel: Selection) {
    sel.start != -1 && sel.end != -1
  }

  function Low(sel: Selection): int {
    if sel.start <= sel.end then sel.start else sel.end
  }

  function High(sel: Selection): int {
    if sel.start <= sel.end then sel.end else sel.start
  }

  /** clear_selection (console.c:504-514). */
  function Cleared(sel: Selection): Selection {
    if sel.start != -1 then Selection(false, -1, -1) else sel.(on := false)
  }

  /** deselect_if_any (console.c:516-522). */
  function Deselected(sel: Selection): Selection {
    if Finished(sel) then Cleared(sel) else sel
  }

  /** Ctrl-S with the cursor at `c` (console.c:537-566). */
  function Marked(sel: Selection, c: nat): Selection {
    if !sel.on then Selection(true, c, -1)
    else if sel.start == c then Selection(false, -1, -1)
    else if sel.start < c then Selection(false, sel.start, c) else Selection(false, c, sel.start)
  }

  // ---------- all keys ----------

  const CTRL_A := '\U{0001}'
  const CTRL_C := '\U{0003}'
  const CTRL_D := '\U{0004}'
  const CTRL_H := '\U{0008}'
  const CTRL_P := '\U{0010}'
  const CTRL_S := '\U{0013}'
  const CTRL_U := '\U{0015}'
  const CTRL_V := '\U{0016}'
  const CTRL_Z := '\U{001A}'
  const DEL := '\U{007F}'
  const KEY_LF := '\U{00E4}'
  const KEY_RT := '\U{00E5}'

  /** What there is to the console's input: the line from `w` on, where the next read will be,
      the clipboard, the selection, and every byte committed so far. */
  datatype Input = Input(line: Line, w: nat, r: nat, clip: string, sel: Selection, sent: string)

  /** The cursor is in the line, and inside a finished selection. */
  predicate Good(s: Input) {
    s.line.cur <= |s.line.text| && (Finished(s.sel) ==> Low(s.sel) <= s.w + s.line.cur <= High(s.sel))
  }

  /** How long a line the ring has room for. */
  function Room(s: Input): int {
    s.r + INPUT_BUF - s.w
  }

  function RoomLeft(s: Input): nat {
    if Room(s) < 0 then 0 else Room(s)
  }

  /** The part of the line that is selected (console.c:446-458). */
  function Span(s: Input): (ab: (nat, nat))
    requires Good(s) && Finished(s.sel)
    ensures ab.0 <= s.line.cur <= ab.1 <= |s.line.text|
  {
    (if Low(s.sel) < s.w then 0 else Low(s.sel) - s.w,
     if High(s.sel) > s.w + |s.line.text| then |s.line.text| else High(s.sel) - s.w)
  }

  /** delete_selection (console.c:441-502). */
  function Cut(s: Input): (r: Input)
    requires Good(s)
    ensures Good(r) && !Finished(r.sel)
  {
    if !Finished(s.sel) then s
    else s.(line := DeleteSpan(s.line, Span(s).0, Span(s).1), sel := Cleared(s.sel))
  }

  predicate Commits(s: Input, ch: char) {
    ch == '\n' || ch == '\r' || |s.line.text| == Room(s)
  }

  /** The line and `ch` become readable. */
  function Committed(s: Input, ch: char, ops: seq<Op>): Input {
    s.(line := Line("", 0, ops), w := s.w + |s.line.text| + 1, sent := s.sent + s.line.text + [ch])
  }

  /** A key that is no editing key (console.c:779-827). */
  function CharKey(s: Input, ch: char): (r: Input)
    requires Good(s)
    ensures Good(r)
  {
    if ch == '\0' then s
    else
      var t := Cut(s);
      var u := if Commits(t, ch) then Committed(t, '\n', [])
               else if |t.line.text| < Room(t) then t.(line := InsertKey(t.line, ch)) else t;
      u.(sel := Cleared(u.sel))
  }

  function PasteKey(s: Input): (r: Input)
    requires Good(s)
    ensures Good(r)
  {
    var t := if s.clip == "" then s else var u := Cut(s); u.(line := PasteKeys(u.line, u.clip, RoomLeft(u)));
    t.(sel := Cleared(Deselected(t.sel)))
  }

  function CopyKey(s: Input): (r: Input)
    requires Good(s)
    ensures Good(r)
  {
    if Finished(s.sel) then s.(clip := s.line.text[Span(s).0..Span(s).1]) else s.(clip := "", sel := Cleared(s.sel))
  }

  function EraseKey(s: Input): (r: Input)
    requires Good(s)
    ensures Good(r)
  {
    if Finished(s.sel) then Cut(s) else s.(line := BackspaceKey(s.line))
  }

  /** The records of the undo stack, seen from one place further on. */
  function Behind(ops: seq<Op>): (r: seq<Op>)
    ensures |r| == |ops|
  {
    seq(|ops|, i requires 0 <= i < |ops| => ops[i].(pos := ops[i].pos - 1))
  }

  /** Ctrl-D (console.c:648-671). */
  function EofKey(s: Input): (r: Input)
    requires Good(s)
    ensures Good(r)
  {
    var t := s.(sel := Deselected(s.sel));
    if t.line.text == "" then Committed(t, CTRL_D, Behind(t.line.ops))
    else t.(line := MoveTo(t.line, NextWord(t.line.text, t.line.cur)))
  }

  /** What the keys that first drop a selection do to the line. */
  function LineKey(s: Line, ch: char): (r: Line)
    requires s.cur <= |s.text|
    ensures r.cur <= |r.text|
  {
    if ch == CTRL_A then MoveTo(s, WordStart(s.text, s.cur))
    else if ch == KEY_LF then MoveTo(s, if s.cur > 0 then s.cur - 1 else 0)
    else if ch == KEY_RT then MoveTo(s, s.cur + 1)
    else if ch == CTRL_U then EMPTY
    else if ch == CTRL_Z then UndoKey(s)
    else s
  }

  predicate IsLineKey(ch: char) {
    ch == CTRL_A || ch == KEY_LF || ch == KEY_RT || ch == CTRL_U || ch == CTRL_Z || ch == CTRL_P
  }

  /** One turn of consoleintr (console.c:530-825), except for tab completion. */
  function Press(s: Input, ch: char): (r: Input)
    requires Good(s)
    ensures Good(r)
  {
    if IsLineKey(ch) then s.(sel := Deselected(s.sel), line := LineKey(s.line, ch))
    else if ch == CTRL_S then s.(sel := Marked(s.sel, s.w + s.line.cur))
    else if ch == CTRL_C then CopyKey(s)
    else if ch == CTRL_V then PasteKey(s)
    else if ch == CTRL_D then EofKey(s)
    else if ch == CTRL_H || ch == DEL then EraseKey(s)
    else CharKey(s, ch)
  }

  /** The keys that put themselves in the line or end it. */
  predicate IsCharKey(ch: char) {
    !IsLineKey(ch) && ch != CTRL_S && ch != CTRL_C && ch != CTRL_V && ch != CTRL_D && ch != CTRL_H && ch != DEL && ch != '\0'
  }

  /** The key commits a byte for which the ring has no room. */
  predicate Overwrites(s: Input, ch: char)
    requires Good(s)
  {
    if ch == CTRL_D then s.line.text == "" && Room(s) <= 0
    else IsCharKey(ch) && Commits(Cut(s), ch) && |Cut(s).line.text| >= Room(Cut(s))
  }

  /** The editing keys commit nothing. */
  lemma EditSendsNothing(s: Input, ch: char)
    requires Good(s) && ch != CTRL_D && !IsCharKey(ch)
    ensures var t := Press(s, ch); t.w == s.w && t.r == s.r && t.sent == s.sent
  {
    hide UndoKey;
    hide PasteKeys;
    hide DeleteSpan;
  }

  /** A key, or a reader that takes `n` bytes. */
  datatype Event = Key(ch: char) | Drained(n: nat)

  function Step(s: Input, ev: Event): (t: Input)
    requires Good(s)
    ensures Good(t)
  {
    match ev
    case Key(ch) => Press(s, ch)
    case Drained(n) => s.(r := if s.r + n <= s.w then s.r + n else s.r)
  }

  function Run(s: Input, evs: seq<Event>): (t: Input)
    requires Good(s)
    ensures Good(t)
    decreases |evs|
  {
    if evs == [] then s else Run(Step(s, evs[0]), evs[1..])
  }

  /** No key of the run commits a byte for which the ring has no room. */
  predicate Spares(s: Input, evs: seq<Event>)
    requires Good(s)
  {
    forall i {:trigger evs[i]} :: 0 <= i < |evs| && evs[i].Key? ==> !Overwrites(Run(s, evs[..i]), evs[i].ch)
  }

  lemma {:induction false} RunAppend(s: Input, evs: seq<Event>, ev: Event)
    requires Good(s)
    ensures Run(s, evs + [ev]) == Step(Run(s, evs), ev)
    decreases |evs|
  {
    if evs == [] {
      assert ([ev])[1..] == [];
    } else {
      assert (evs + [ev])[1..] == evs[1..] + [ev];
      RunAppend(Step(s, evs[0]), evs[1..], ev);
    }
  }

  // ---------- undo ----------

  const EMPTY := Line("", 0, [])

  function UndoTimes(s: Line, k: nat): (r: Line)
    requires s.cur <= |s.text|
    ensures r.cur <= |r.text|
    decreases k
  {
    if k == 0 then s else UndoTimes(UndoKey(s), k - 1)
  }

  /** Equal but for the cursor, which undo does not look at. */
  predicate SameLine(s: Line, t: Line) {
    s.text == t.text && s.ops == t.ops
  }

  lemma {:induction false} UndoIgnoresCursor(s: Line, t: Line, k: nat)
    requires s.cur <= |s.text| && t.cur <= |t.text| && SameLine(s, t)
    ensures SameLine(UndoTimes(s, k), UndoTimes(t, k))
    decreases k
  {
    if k > 0 { UndoIgnoresCursor(UndoKey(s), UndoKey(t), k - 1); }
  }

  /** One undo takes the last insertion out again. */
  lemma UndoUndoesInsert(s: Line, ch: char, k: nat)
    requires s.cur <= |s.text| && |s.ops| < UNDO_BUF
    ensures SameLine(UndoTimes(InsertKey(s, ch), k + 1), UndoTimes(s, k))
  {
    assert SameLine(UndoKey(InsertKey(s, ch)), s);
    UndoIgnoresCursor(UndoKey(InsertKey(s, ch)), s, k);
  }

  lemma {:induction false} UndoUndoesPaste(s: Line, clip: string, room: nat, k: nat)
    requires s.cur <= |s.text| && |s.ops| + Taken(s, clip, room) <= UNDO_BUF
    ensures SameLine(UndoTimes(PasteKeys(s, clip, room), Taken(s, clip, room) + k), UndoTimes(s, k))
    decreases |clip|
  {
    hide UndoTimes;
    hide UndoKey;
    if clip != [] {
      if |s.text| < room {
        UndoUndoesPaste(InsertKey(s, clip[0]), clip[1..], room, k + 1);
        UndoUndoesInsert(s, clip[0], k);
      } else {
        UndoUndoesPaste(s, clip[1..], room, k);
      }
    }
  }

  /** The key changes the line by putting characters in, or not at all. */
  predicate Plain(s: Input, ev: Event)
    requires Good(s)
  {
    match ev
    case Drained(_) => true
    case Key(ch) =>
      if ch == CTRL_H || ch == DEL || ch == CTRL_U || ch == CTRL_Z then false
      else if ch == CTRL_D then s.line.text != ""
      else if ch == CTRL_V then s.clip == "" || NothingSelected(s)
      else if ch == '\0' || ch == CTRL_S || ch == CTRL_C || IsLineKey(ch) then true
      else NothingSelected(s) && !Commits(s, ch)
  }

  predicate NothingSelected(s: Input)
    requires Good(s)
  {
    Finished(s.sel) ==> Span(s).0 == Span(s).1
  }

  /** How many characters it puts in. */
  function Puts(s: Input, ev: Event): nat {
    if ev.Drained? then 0
    else if ev.ch == CTRL_V then Taken(s.line, s.clip, RoomLeft(s))
    else if IsLineKey(ev.ch) || ev.ch in {'\0', CTRL_S, CTRL_C, CTRL_D} || |s.line.text| >= Room(s) then 0
    else 1
  }

  lemma CutNothing(s: Input)
    requires Good(s) && NothingSelected(s)
    ensures Cut(s).line == s.line
  {
  }

  lemma PlainGrows(s: Input, ev: Event)
    requires Good(s) && Plain(s, ev)
    ensures |Step(s, ev).line.text| == |s.line.text| + Puts(s, ev)
  {
    hide InsertKey;
    hide PasteKeys;
    if NothingSelected(s) {
      CutNothing(s);
    }
    if Puts(s, ev) == 0 {
      PlainQuiet(s, ev);
    } else if ev.ch == CTRL_V {
      PasteGrows(s.line, s.clip, RoomLeft(s));
    } else {
      InsertGrows(s.line, ev.ch);
    }
  }

  lemma PlainStep(s: Input, ev: Event, k: nat)
    requires Good(s) && Plain(s, ev) && |s.line.ops| + Puts(s, ev) <= UNDO_BUF
    ensures SameLine(UndoTimes(Step(s, ev).line, Puts(s, ev) + k), UndoTimes(s.line, k))
    ensures |Step(s, ev).line.ops| == |s.line.ops| + Puts(s, ev)
  {
    hide UndoTimes;
    hide InsertKey;
    hide PasteKeys;
    if NothingSelected(s) {
      CutNothing(s);
    }
    if Puts(s, ev) == 0 {
      PlainQuiet(s, ev);
      UndoIgnoresCursor(Step(s, ev).line, s.line, k);
    } else if ev.ch == CTRL_V {
      UndoUndoesPaste(s.line, s.clip, RoomLeft(s), k);
      PasteGrows(s.line, s.clip, RoomLeft(s));
    } else {
      InsertGrows(s.line, ev.ch);
      UndoUndoesInsert(s.line, ev.ch, k);
    }
  }

  lemma InsertGrows(s: Line, ch: char)
    requires s.cur <= |s.text|
    ensures |InsertKey(s, ch).text| == |s.text| + 1
    ensures |InsertKey(s, ch).ops| == if |s.ops| < UNDO_BUF then |s.ops| + 1 else |s.ops|
  {
  }

  lemma {:induction false} PasteGrows(s: Line, clip: string, room: nat)
    requires s.cur <= |s.text|
    ensures |PasteKeys(s, clip, room).text| == |s.text| + Taken(s, clip, room)
    ensures |PasteKeys(s, clip, room).ops| <= |s.ops| + Taken(s, clip, room)
    ensures |s.ops| + Taken(s, clip, room) <= UNDO_BUF ==> |PasteKeys(s, clip, room).ops| == |s.ops| + Taken(s, clip, room)
    decreases |clip|
  {
    hide InsertKey;
    if clip != [] {
      if |s.text| < room {
        InsertGrows(s, clip[0]);
        PasteGrows(InsertKey(s, clip[0]), clip[1..], room);
      } else {
        PasteGrows(s, clip[1..], room);
      }
    }
  }

  lemma {:induction false} PasteNothing(s: Line, clip: string, room: nat)
    requires s.cur <= |s.text| && Taken(s, clip, room) == 0
    ensures PasteKeys(s, clip, room) == s
    decreases |clip|
  {
    if clip != [] {
      PasteNothing(s, clip[1..], room);
    }
  }

  lemma PlainQuiet(s: Input, ev: Event)
    requires Good(s) && Plain(s, ev) && Puts(s, ev) == 0
    ensures SameLine(Step(s, ev).line, s.line)
  {
    hide PasteKeys;
    hide InsertKey;
    hide UndoKey;
    if NothingSelected(s) {
      CutNothing(s);
    }
    if ev.Key? && ev.ch == CTRL_V {
      PasteNothing(s.line, s.clip, RoomLeft(s));
    }
  }

  predicate AllPlain(s: Input, evs: seq<Event>)
    requires Good(s)
    decreases |evs|
  {
    evs == [] || (Plain(s, evs[0]) && AllPlain(Step(s, evs[0]), evs[1..]))
  }

  /** How many characters a run puts in. */
  function Insertions(s: Input, evs: seq<Event>): nat
    requires Good(s)
    decreases |evs|
  {
    if evs == [] then 0 else Puts(s, evs[0]) + Insertions(Step(s, evs[0]), evs[1..])
  }

  /** As many undos as a run put characters in give back the line, while the undo stack has
      room for all of them. */
  lemma {:induction false} UndosRestore(s: Input, evs: seq<Event>, k: nat)
    requires Good(s) && AllPlain(s, evs) && |s.line.ops| + Insertions(s, evs) <= UNDO_BUF
    ensures SameLine(UndoTimes(Run(s, evs).line, Insertions(s, evs) + k), UndoTimes(s.line, k))
    decreases |evs|
  {
    hide UndoTimes;
    hide Step;
    hide Puts;
    hide Plain;
    if evs != [] {
      PlainStep(s, evs[0], k);
      UndosRestore(Step(s, evs[0]), evs[1..], Puts(s, evs[0]) + k);
    }
  }

  /** k times Ctrl-Z. */
  function Undos(k: nat): seq<Event> {
    if k == 0 then [] else [Key(CTRL_Z)] + Undos(k - 1)
  }

  lemma {:induction false} UndosUndo(s: Input, k: nat)
    requires Good(s)
    ensures Run(s, Undos(k)).line == UndoTimes(s.line, k)
    decreases k
  {
    if k > 0 {
      assert Undos(k)[1..] == Undos(k - 1);
      UndosUndo(Step(s, Key(CTRL_Z)), k - 1);
    }
  }

  // ---------- lines with nothing deleted ----------

  /** The console when the machine starts. */
  const BOOT := Input(EMPTY, 0, 0, "", Selection(false, 0, 0), "")

  /** The event deletes nothing that stays undeleted. */
  predicate Mild(s: Input, ev: Event)
    requires Good(s)
  {
    match ev
    case Drained(_) => true
    case Key(ch) =>
      if ch == CTRL_H || ch == DEL then false
      else if ch == CTRL_V then s.clip == "" || NothingSelected(s)
      else ch in {'\0', CTRL_S, CTRL_C, CTRL_D} || IsLineKey(ch) || NothingSelected(s)
  }

  predicate AllMild(s: Input, evs: seq<Event>)
    requires Good(s)
    decreases |evs|
  {
    evs == [] || (Mild(s, evs[0]) && AllMild(Step(s, evs[0]), evs[1..]))
  }

  /** The line has no more records than characters, and fits the ring. */
  predicate Few(s: Input) {
    s.r <= s.w && |s.line.ops| <= |s.line.text| <= INPUT_BUF
  }

  lemma FewLineKey(s: Line, ch: char)
    requires s.cur <= |s.text| && |s.ops| <= |s.text| <= INPUT_BUF
    ensures var t := LineKey(s, ch); |t.ops| <= |t.text| <= INPUT_BUF
  {
  }

  lemma FewChar(s: Input, ch: char)
    requires Good(s) && Few(s) && (ch == '\0' || NothingSelected(s))
    ensures Few(CharKey(s, ch))
  {
    hide InsertKey;
    if NothingSelected(s) {
      CutNothing(s);
    }
    InsertGrows(s.line, ch);
  }

  lemma FewPaste(s: Input)
    requires Good(s) && Few(s) && (s.clip == "" || NothingSelected(s))
    ensures Few(PasteKey(s))
  {
    hide PasteKeys;
    if NothingSelected(s) {
      CutNothing(s);
    }
    PasteGrows(s.line, s.clip, RoomLeft(s));
  }

  lemma FewStep(s: Input, ev: Event)
    requires Good(s) && Few(s) && Mild(s, ev)
    ensures Few(Step(s, ev))
  {
    hide LineKey;
    hide CharKey;
    hide PasteKey;
    if ev.Key? {
      FewLineKey(s.line, ev.ch);
      if ev.ch == CTRL_V {
        FewPaste(s);
      } else if ev.ch == '\0' || NothingSelected(s) {
        FewChar(s, ev.ch);
      }
    }
  }

  lemma {:induction false} FewRecords(s: Input, evs: seq<Event>)
    requires Good(s) && Few(s) && AllMild(s, evs)
    ensures Few(Run(s, evs))
    decreases |evs|
  {
    hide Step;
    hide Mild;
    if evs != [] {
      FewStep(s, evs[0]);
      FewRecords(Step(s, evs[0]), evs[1..]);
    }
  }

  lemma {:induction false} PlainIsMild(s: Input, evs: seq<Event>)
    requires Good(s) && AllPlain(s, evs)
    ensures AllMild(s, evs)
    decreases |evs|
  {
    hide Step;
    if evs != [] {
      PlainIsMild(Step(s, evs[0]), evs[1..]);
    }
  }

  lemma {:induction false} TextGrows(s: Input, evs: seq<Event>)
    requires Good(s) && AllPlain(s, evs)
    ensures |Run(s, evs).line.text| == |s.line.text| + Insertions(s, evs)
    decreases |evs|
  {
    hide Step;
    hide Puts;
    hide Plain;
    if evs != [] {
      PlainGrows(s, evs[0]);
      TextGrows(Step(s, evs[0]), evs[1..]);
    }
  }

  /** On a line from which nothing was deleted, except by undo or with the whole line: whatever
      is put in after a moment, with any moves, copies, selections and reads in between, that
      many times Ctrl-Z gives back the line of that moment. */
  lemma UndoGivesBack(made: seq<Event>, later: seq<Event>)
    requires AllMild(BOOT, made) && AllPlain(Run(BOOT, made), later)
    ensures var s := Run(BOOT, made); SameLine(Run(Run(s, later), Undos(Insertions(s, later))).line, s.line)
  {
    hide Step;
    hide Run;
    hide Insertions;
    hide AllMild;
    hide AllPlain;
    var s := Run(BOOT, made);
    FewRecords(BOOT, made);
    PlainIsMild(s, later);
    FewRecords(s, later);
    TextGrows(s, later);
    UndosRestore(s, later, 0);
    UndosUndo(Run(s, later), Insertions(s, later));
  }

  // ---------- deletions ----------

  predicate IsDeleteKey(ch: char) {
    ch == CTRL_H || ch == DEL || ch == CTRL_U
  }

  /** A deleting key finds something to delete: the selection, the character before the cursor,
      or with Ctrl-U the line. */
  predicate Deletes(s: Input, ch: char)
    requires Good(s)
  {
    if ch == CTRL_U then s.line.text != ""
    else if Finished(s.sel) then !NothingSelected(s) else s.line.cur > 0
  }

  lemma DeleteShortens(s: Input, ch: char)
    requires Good(s) && IsDeleteKey(ch)
    ensures if Deletes(s, ch) then |Press(s, ch).line.text| < |s.line.text| else Press(s, ch).line.text == s.line.text
  {
    if NothingSelected(s) {
      CutNothing(s);
    }
  }

  lemma {:induction false} DeletesRecorded(ops: seq<Op>, text: string, a: nat, b: nat)
    requires a <= b <= |text| && |ops| + (b - a) <= UNDO_BUF
    ensures var r := RecordDeletes(ops, text, a, b);
            && |r| == |ops| + (b - a) && r[..|ops|] == ops
            && forall i :: |ops| <= i < |r| ==> r[i].Delete?
    decreases b - a
  {
    if a < b {
      var ops1 := Record(ops, Delete(a, text[a]));
      DeletesRecorded(ops1, text, a + 1, b);
      var r := RecordDeletes(ops1, text, a + 1, b);
      assert r[..|ops1|][..|ops|] == r[..|ops|] && ops1[..|ops|] == ops;
      assert r[|ops|] == r[..|ops1|][|ops|] == ops1[|ops|];
    }
  }

  lemma {:induction false} UndoDropsDeletes(s: Line, k: nat)
    requires s.cur <= |s.text| && k <= |s.ops| && forall i :: |s.ops| - k <= i < |s.ops| ==> s.ops[i].Delete?
    ensures UndoTimes(s, k) == s.(ops := s.ops[..|s.ops| - k])
    decreases k
  {
    if k == 0 {
      assert s.ops[..|s.ops|] == s.ops;
    } else {
      var s' := UndoKey(s);
      assert s' == s.(ops := s.ops[..|s.ops| - 1]);
      UndoDropsDeletes(s', k - 1);
      assert s.ops[..|s.ops| - 1][..|s.ops| - k] == s.ops[..|s.ops| - k];
    }
  }

  /** Each character that a key deletes takes one Ctrl-Z, which does nothing else than to drop its
      record, while the stack has room. */
  lemma DeletionTakesUndos(s: Line, a: nat, b: nat)
    requires a < b <= |s.text| && s.cur <= |s.text| && |s.ops| + (b - a) <= UNDO_BUF
    ensures UndoTimes(DeleteSpan(s, a, b), b - a) == DeleteSpan(s, a, b).(ops := s.ops)
    ensures b == a + 1 && s.cur == b ==> DeleteSpan(s, a, b) == BackspaceKey(s)
  {
    DeletesRecorded(s.ops, s.text, a, b);
    UndoDropsDeletes(DeleteSpan(s, a, b), b - a);
    if b == a + 1 && s.cur == b {
      assert RecordDeletes(s.ops, s.text, a, b) == RecordDeletes(Record(s.ops, Delete(a, s.text[a])), s.text, b, b);
    }
  }

  lemma {:induction false} UndoNeverLengthens(s: Line, k: nat)
    requires s.cur <= |s.text|
    ensures |UndoTimes(s, k).text| <= |s.text|
    decreases k
  {
    if k > 0 {
      UndoNeverLengthens(UndoKey(s), k - 1);
    }
  }

  /** What a key deleted comes back with no number of Ctrl-Z: some number gives back the text
      before the key exactly when the key had nothing to delete. */
  lemma UndoRestoresExactlyWhen(s: Input, ch: char)
    requires Good(s) && IsDeleteKey(ch)
    ensures (exists k: nat :: Run(Press(s, ch), Undos(k)).line.text == s.line.text) <==> !Deletes(s, ch)
  {
    hide Press;
    hide Deletes;
    DeleteShortens(s, ch);
    var t := Press(s, ch);
    forall k: nat
      ensures |Run(t, Undos(k)).line.text| <= |t.line.text|
    {
      UndosUndo(t, k);
      UndoNeverLengthens(t.line, k);
    }
    assert Run(t, Undos(0)).line.text == t.line.text;
  }

  // ---------- keys that undo or complete one another ----------

  /** Typing a character and erasing it leaves the line as it was, without the selection that the
      character replaced. */
  lemma EraseUndoesType(s: Input, ch: char)
    requires Good(s) && IsCharKey(ch) && !Commits(Cut(s), ch) && |Cut(s).line.text| < Room(Cut(s))
    ensures var t := Press(Press(s, ch), DEL); t.line.text == Cut(s).line.text && t.line.cur == Cut(s).line.cur
  {
    hide Cut;
    hide InsertKey;
    hide BackspaceKey;
    InsertThenErase(Cut(s).line, ch);
  }

  lemma InsertThenErase(s: Line, ch: char)
    requires s.cur <= |s.text|
    ensures BackspaceKey(InsertKey(s, ch)).text == s.text && BackspaceKey(InsertKey(s, ch)).cur == s.cur
  {
  }

  /** Copying the selection, erasing it and pasting gives back the text, with the cursor behind
      what was selected. */
  lemma CopyErasePaste(s: Input)
    requires Good(s) && Finished(s.sel) && |s.line.text| <= Room(s)
    ensures var t := Press(Press(Press(s, CTRL_C), CTRL_H), CTRL_V);
            t.line.text == s.line.text && t.line.cur == Span(s).1 && t.clip == s.line.text[Span(s).0..Span(s).1]
  {
    hide Press;
    hide Span;
    CopyThenErase(s);
    PasteBack(Press(Press(s, CTRL_C), CTRL_H), s.line.text, Span(s).0, Span(s).1);
  }

  lemma CopyThenErase(s: Input)
    requires Good(s) && Finished(s.sel)
    ensures var (a, b) := Span(s);
            var u := Press(Press(s, CTRL_C), CTRL_H);
            && u.clip == s.line.text[a..b] && !Finished(u.sel) && Room(u) == Room(s)
            && u.line.text == s.line.text[..a] + s.line.text[b..] && u.line.cur == a
  {
    hide RecordDeletes;
    var u := Press(s, CTRL_C);
    assert u == s.(clip := s.line.text[Span(s).0..Span(s).1]) && Span(u) == Span(s);
    hide Span;
    if Span(s).0 == Span(s).1 {
      assert s.line.text[..Span(s).0] + s.line.text[Span(s).0..] == s.line.text;
    }
  }

  lemma PasteBack(u: Input, text: string, a: nat, b: nat)
    requires Good(u) && !Finished(u.sel) && a <= b <= |text| <= Room(u) && u.clip == text[a..b] && u.line.text == text[..a] + text[b..] && u.line.cur == a
    ensures var t := Press(u, CTRL_V); t.line.text == text && t.line.cur == b && t.clip == u.clip
  {
    hide PasteKeys;
    PasteIsSplice(u.line, u.clip, RoomLeft(u));
    assert u.clip[..|u.clip|] == u.clip;
    assert u.line.text[..a] == text[..a] && u.line.text[a..] == text[b..];
    assert text[..a] + text[a..b] + text[b..] == text;
  }

  /** Ctrl-S at one place of the line and at another: what is between them is selected. */
  lemma SelectsBetween(s: Input, t: Input)
    requires Good(s) && Good(t) && !s.sel.on && t.line.text == s.line.text && t.w == s.w && t.sel == Press(s, CTRL_S).sel
    ensures var a, b := s.line.cur, t.line.cur;
            var u := Press(t, CTRL_S);
            if a == b then !Finished(u.sel) else Finished(u.sel) && Span(u) == if a < b then (a, b) else (b, a)
  {
  }

  /** The keys of a word. */
  function Typed(word: string): seq<Event> {
    if word == "" then [] else [Key(word[0])] + Typed(word[1..])
  }

  predicate PlainWord(word: string) {
    forall i :: 0 <= i < |word| ==> IsCharKey(word[i]) && word[i] != '\n' && word[i] != '\r'
  }

  /** `word` has gone in at the end of the line, and nothing else has happened. */
  predicate Appended(s: Input, t: Input, word: string) {
    && t.line.text == s.line.text + word && t.line.cur == |t.line.text| && !Finished(t.sel)
    && t.w == s.w && t.r == s.r && t.sent == s.sent
  }

  lemma TypedKey(s: Input, ch: char)
    requires Good(s) && !Finished(s.sel) && s.line.cur == |s.line.text| < Room(s) && IsCharKey(ch) && ch != '\n' && ch != '\r'
    ensures Appended(s, Press(s, ch), [ch])
  {
    assert s.line.text[..s.line.cur] == s.line.text && s.line.text[s.line.cur..] == "";
  }

  lemma AppendedThen(s: Input, t: Input, u: Input, ch: char, word: string)
    requires Appended(s, t, [ch]) && Appended(t, u, word)
    ensures Appended(s, u, [ch] + word)
  {
    assert s.line.text + [ch] + word == s.line.text + ([ch] + word);
  }

  lemma RunFirst(s: Input, ch: char, word: string)
    requires Good(s)
    ensures Run(s, Typed([ch] + word)) == Run(Press(s, ch), Typed(word))
  {
    hide Press;
    assert ([ch] + word)[1..] == word;
    assert ([Key(ch)] + Typed(word))[1..] == Typed(word);
  }

  lemma {:induction false} TypedAppends(s: Input, word: string)
    requires Good(s) && !Finished(s.sel) && s.line.cur == |s.line.text| && PlainWord(word) && |s.line.text| + |word| <= Room(s)
    ensures Appended(s, Run(s, Typed(word)), word)
    decreases |word|
  {
    if word == "" {
      assert s.line.text + word == s.line.text;
    } else {
      var ch, more := word[0], word[1..];
      assert word == [ch] + more;
      TypedKey(s, ch);
      RunFirst(s, ch, more);
      hide Press;
      hide IsCharKey;
      hide Run;
      TypedAppends(Press(s, ch), more);
      AppendedThen(s, Press(s, ch), Run(s, Typed(word)), ch, more);
    }
  }

  /** A word typed on an empty line and ended with a newline is what becomes readable. */
  lemma TypedLineIsSent(s: Input, word: string)
    requires Good(s) && !Finished(s.sel) && s.line.text == "" && PlainWord(word) && |word| <= Room(s)
    ensures Run(s, Typed(word) + [Key('\n')]).sent == s.sent + word + "\n"
  {
    TypedAppends(s, word);
    var t := Run(s, Typed(word));
    RunAppend(s, Typed(word), Key('\n'));
    hide Run;
    assert "" + word == word;
  }
}

/** The console's input ring and its editing keys (console.c:218-230, 440-522, 537-827,
    837-869), without what they draw. */
module Console {
  import opened LineEdit

  const CLIPBOARD_BUF := 128

  // ---------- the ring ----------

  function Slot(i: nat): (k: nat)
    ensures k < INPUT_BUF
  {
    i % INPUT_BUF
  }

  lemma SlotsApart(i: nat, j: nat)
    requires i < j < i + INPUT_BUF
    ensures Slot(i) != Slot(j)
  {
  }

  function At(mem: string, i: nat): char
    requires |mem| == INPUT_BUF
  {
    mem[Slot(i)]
  }

  /** The bytes from `a` up to `b`. */
  function Ring(mem: string, a: nat, b: nat): (s: string)
    requires |mem| == INPUT_BUF && a <= b
    ensures |s| == b - a
  {
    seq(b - a, i requires 0 <= i < b - a => At(mem, a + i))
  }

  lemma RingAt(mem: string, a: nat, b: nat, i: nat)
    requires |mem| == INPUT_BUF && a <= i < b
    ensures Ring(mem, a, b)[i - a] == At(mem, i)
  {
  }

  lemma Stored(mem: string, a: nat, b: nat, p: nat, x: char)
    requires |mem| == INPUT_BUF && a <= p < b <= a + INPUT_BUF
    ensures Ring(mem[Slot(p) := x], a, b) == Ring(mem, a, b)[p - a := x]
  {
    var s, s' := Ring(mem, a, b)[p - a := x], Ring(mem[Slot(p) := x], a, b);
    forall i | 0 <= i < b - a
      ensures s'[i] == s[i]
    {
      if a + i < p { SlotsApart(a + i, p); } else if p < a + i { SlotsApart(p, a + i); }
    }
  }

  lemma RingSplit(mem: string, a: nat, m: nat, b: nat)
    requires |mem| == INPUT_BUF && a <= m <= b
    ensures Ring(mem, a, b) == Ring(mem, a, m) + Ring(mem, m, b)
    ensures Ring(mem, a, b)[..m - a] == Ring(mem, a, m) && Ring(mem, a, b)[m - a..] == Ring(mem, m, b)
  {
  }

  /** Moving the bytes from `p` on one place up, last first (console.c:616-617, 812-813). */
  method ShiftUp(buf: array<char>, ghost a: nat, p: nat, e: nat)
    requires buf.Length == INPUT_BUF && a <= p <= e < a + INPUT_BUF
    modifies buf
    ensures Ring(buf[..], a, e + 1) == ShiftedUp(old(Ring(buf[..], a, e + 1)), p - a)
  {
    hide Ring;
    hide Slot;
    ghost var was := Ring(buf[..], a, e + 1);
    var i := e;
    assert was == was[..e - a + 1] + was[e - a..e - a];
    while i > p
      invariant p <= i <= e
      invariant Ring(buf[..], a, e + 1) == was[..i - a + 1] + was[i - a..e - a]
    {
      ghost var mem := buf[..];
      RingUp(mem, was, a, e, i);
      buf[Slot(i)] := buf[Slot(i - 1)];
      assert buf[..] == mem[Slot(i) := mem[Slot(i - 1)]];
      i := i - 1;
    }
  }

  lemma RingUp(mem: string, was: string, a: nat, e: nat, i: nat)
    requires |mem| == INPUT_BUF && a < i <= e < a + INPUT_BUF && |was| == e + 1 - a
    requires Ring(mem, a, e + 1) == was[..i - a + 1] + was[i - a..e - a]
    ensures Ring(mem[Slot(i) := mem[Slot(i - 1)]], a, e + 1) == was[..i - a] + was[i - 1 - a..e - a]
  {
    hide Ring;
    hide Slot;
    Stored(mem, a, e + 1, i, mem[Slot(i - 1)]);
    RingAt(mem, a, e + 1, i - 1);
    UpOne(was, Ring(mem, a, e + 1), i - a);
  }

  lemma UpOne(was: string, s: string, k: nat)
    requires 0 < k < |was| && s == was[..k + 1] + was[k..|was| - 1]
    ensures s[k - 1] == was[k - 1] && s[k := was[k - 1]] == was[..k] + was[k - 1..|was| - 1]
  {
    var t := was[..k] + was[k - 1..|was| - 1];
    forall i | 0 <= i < |was|
      ensures s[k := was[k - 1]][i] == t[i]
    {
    }
  }

  function ShiftedUp(s: string, k: nat): (r: string)
    requires k < |s|
    ensures |r| == |s|
  {
    s[..k + 1] + s[k..|s| - 1]
  }

  /** Moving the bytes from `p` on down by `len` (console.c:485-486, 719-720, 746-747). */
  method ShiftDown(buf: array<char>, ghost a: nat, p: nat, e: nat, len: nat)
    requires buf.Length == INPUT_BUF && a + len <= p <= e <= a + INPUT_BUF
    modifies buf
    ensures Ring(buf[..], a, e) == ShiftedDown(old(Ring(buf[..], a, e)), p - a, len, e - a)
  {
    hide ShiftedDown;
    hide Slot;
    ghost var was := Ring(buf[..], a, e);
    var i := p;
    assert was == ShiftedDown(was, p - a, len, p - a) by { ShiftedNone(was, p - a, len); }
    while i < e
      invariant p <= i <= e
      invariant Ring(buf[..], a, e) == ShiftedDown(was, p - a, len, i - a)
    {
      ghost var mem := buf[..];
      Stored(mem, a, e, i - len, buf[Slot(i)]);
      ShiftedStep(was, p - a, len, i - a);
      RingAt(mem, a, e, i);
      buf[Slot(i - len)] := buf[Slot(i)];
      assert buf[..] == mem[Slot(i - len) := mem[Slot(i)]];
      i := i + 1;
    }
  }

  /** The bytes from `k` up to `j` have been moved. */
  function ShiftedDown(s: string, k: nat, len: nat, j: nat): (r: string)
    requires len <= k <= j <= |s|
    ensures |r| == |s|
  {
    s[..k - len] + s[k..j] + s[j - len..]
  }

  lemma ShiftedNone(s: string, k: nat, len: nat)
    requires len <= k <= |s|
    ensures ShiftedDown(s, k, len, k) == s
  {
  }

  lemma ShiftedStep(s: string, k: nat, len: nat, j: nat)
    requires len <= k <= j < |s|
    ensures ShiftedDown(s, k, len, j)[j] == s[j]
    ensures ShiftedDown(s, k, len, j)[j - len := s[j]] == ShiftedDown(s, k, len, j + 1)
  {
  }

  // ---------- what the moves do to the line ----------

  lemma InsertedLine(mem: string, mem': string, a: nat, w: nat, c: nat, e: nat, ch: char)
    requires |mem| == |mem'| == INPUT_BUF && a <= w <= c <= e
    requires Ring(mem', a, e + 1) == ShiftedUp(Ring(mem, a, e + 1), c - a)[c - a := ch]
    ensures Ring(mem', a, w) == Ring(mem, a, w)
    ensures Ring(mem', w, e + 1) == Ring(mem, w, e)[..c - w] + [ch] + Ring(mem, w, e)[c - w..]
  {
    hide Ring;
    hide ShiftedUp;
    RingSplit(mem', a, w, e + 1);
    RingSplit(mem, a, w, e + 1);
    RingSplit(mem, w, e, e + 1);
    PutMiddle(Ring(mem, a, e + 1), Ring(mem', a, e + 1), w - a, c - a, ch);
  }

  lemma PutMiddle(s: string, s': string, m: nat, k: nat, ch: char)
    requires m <= k < |s| && s' == ShiftedUp(s, k)[k := ch]
    ensures s'[..m] == s[..m] && s'[m..] == s[m..][..|s| - 1 - m][..k - m] + [ch] + s[m..][..|s| - 1 - m][k - m..]
  {
    var t := s[m..][..|s| - 1 - m];
    var line := t[..k - m] + [ch] + t[k - m..];
    forall i | 0 <= i < |s|
      ensures s'[i] == if i < k then s[i] else if i == k then ch else s[i - 1]
    {
    }
    forall i | 0 <= i < |s| - m
      ensures s'[m..][i] == line[i]
    {
      assert s'[m..][i] == s'[m + i];
      if i > k - m {
        assert line[i] == t[i - 1] == s[m + i - 1];
      } else if i < k - m {
        assert line[i] == t[i] == s[m + i];
      }
    }
  }

  lemma RemovedLine(mem: string, mem': string, a: nat, w: nat, p: nat, e: nat, len: nat)
    requires |mem| == |mem'| == INPUT_BUF && a <= w && w + len <= p <= e
    requires Ring(mem', a, e) == ShiftedDown(Ring(mem, a, e), p - a, len, e - a)
    ensures Ring(mem', a, w) == Ring(mem, a, w)
    ensures Ring(mem', w, e - len) == Ring(mem, w, e)[..p - len - w] + Ring(mem, w, e)[p - w..]
  {
    hide Ring;
    hide ShiftedDown;
    RingSplit(mem', a, w, e);
    RingSplit(mem', w, e - len, e);
    RingSplit(mem, a, w, e);
    CutMiddle(Ring(mem, a, e), Ring(mem', a, e), w - a, p - a, len);
    assert Ring(mem', w, e) == Ring(mem', a, e)[w - a..] && Ring(mem, w, e) == Ring(mem, a, e)[w - a..];
    assert Ring(mem', w, e - len) == Ring(mem', w, e)[..e - len - w];
  }

  lemma CutMiddle(s: string, s': string, m: nat, k: nat, len: nat)
    requires m + len <= k <= |s| && s' == ShiftedDown(s, k, len, |s|)
    ensures s'[..m] == s[..m] && s'[m..][..|s| - len - m] == s[m..][..k - len - m] + s[m..][k - m..]
  {
    forall i | 0 <= i < |s| - len
      ensures s'[i] == if i < k - len then s[i] else s[i + len]
    {
    }
    hide ShiftedDown;
    var t, line := s'[m..][..|s| - len - m], s[m..][..k - len - m] + s[m..][k - m..];
    forall i | 0 <= i < |s| - len - m
      ensures t[i] == line[i]
    {
      assert t[i] == s'[m + i];
      if i < k - len - m {
        assert line[i] == s[m + i];
      } else {
        assert line[i] == s[m..][k - m..][i - (k - len - m)] == s[m + i + len];
      }
    }
  }

  /** A byte goes in at `c`: the line w..e grows by it and a..w stays. */
  method InsertAt(buf: array<char>, ghost a: nat, ghost w: nat, c: nat, e: nat, ch: char)
    requires buf.Length == INPUT_BUF && a <= w <= c <= e < a + INPUT_BUF
    modifies buf
    ensures Ring(buf[..], a, w) == old(Ring(buf[..], a, w))
    ensures Ring(buf[..], w, e + 1) == old(Ring(buf[..], w, e))[..c - w] + [ch] + old(Ring(buf[..], w, e))[c - w..]
  {
    hide Slot;
    hide ShiftedUp;
    ghost var mem := buf[..];
    ShiftUp(buf, a, c, e);
    ghost var mem' := buf[..];
    Stored(mem', a, e + 1, c, ch);
    buf[Slot(c)] := ch;
    assert buf[..] == mem'[Slot(c) := ch];
    InsertedLine(mem, buf[..], a, w, c, e, ch);
  }

  /** The bytes p-len..p go: the line shrinks by them and a..w stays. */
  method RemoveAt(buf: array<char>, ghost a: nat, ghost w: nat, p: nat, e: nat, len: nat)
    requires buf.Length == INPUT_BUF && a <= w && w + len <= p <= e <= a + INPUT_BUF
    modifies buf
    ensures Ring(buf[..], a, w) == old(Ring(buf[..], a, w))
    ensures Ring(buf[..], w, e - len) == old(Ring(buf[..], w, e))[..p - len - w] + old(Ring(buf[..], w, e))[p - w..]
  {
    hide Slot;
    hide ShiftedDown;
    ghost var mem := buf[..];
    ShiftDown(buf, a, p, e, len);
    RemovedLine(mem, buf[..], a, w, p, e, len);
  }

  lemma RelativePop(ops: seq<Op>, w: nat)
    requires |ops| > 0
    ensures Relative(ops, w)[..|ops| - 1] == Relative(ops[..|ops| - 1], w)
    ensures Relative(ops, w)[|ops| - 1] == RelativeOp(ops[|ops| - 1], w)
  {
  }

  lemma RecordRelative(ops: seq<Op>, op: Op, w: nat)
    ensures Relative(LineEdit.Record(ops, op), w) == LineEdit.Record(Relative(ops, w), RelativeOp(op, w))
  {
  }

  /** Undo records hold ring positions. */
  function Relative(ops: seq<Op>, w: nat): (r: seq<Op>)
    ensures |r| == |ops|
  {
    seq(|ops|, i requires 0 <= i < |ops| => RelativeOp(ops[i], w))
  }

  function RelativeOp(op: Op, w: nat): Op {
    op.(pos := op.pos - w)
  }

  class Console {
    const buf: array<char>
    var r: nat
    var w: nat
    var e: nat
    var c: nat
    var selecting: bool
    var selStart: int
    var selEnd: int
    var clipboard: string
    var undo: seq<Op>
    ghost var sent: string    // every byte committed so far

    /** The line lies within the ring; only an empty one can start beyond it. */
    ghost predicate Valid()
      reads this
    {
      && buf.Length == INPUT_BUF && r <= w <= c <= e && (e <= r + INPUT_BUF || w == e)
      && SelectionOk()
    }

    /** The cursor stays inside a finished selection. */
    ghost predicate SelectionOk()
      reads `selecting, `selStart, `selEnd, `c
    {
      selStart >= -1 && selEnd >= -1 && (Selected() ==> Low(Sel()) <= c <= High(Sel()))
    }

    function Sel(): Selection
      reads `selecting, `selStart, `selEnd
    {
      Selection(selecting, selStart, selEnd)
    }

    predicate Selected()
      reads `selecting, `selStart, `selEnd
    {
      Finished(Sel())
    }

    ghost function Line(): string
      requires Valid()
      reads this, buf
    {
      Ring(buf[..], w, e)
    }

    ghost function Unread(): string
      requires Valid()
      reads this, buf
    {
      Ring(buf[..], r, w)
    }

    /** The line being edited. */
    ghost function Edited(): LineEdit.Line
      requires Valid()
      reads this, buf
    {
      LineEdit.Line(Line(), c - w, Relative(undo, w))
    }

    ghost function State(): (s: Input)
      requires Valid()
      reads this, buf
      ensures Good(s)
    {
      Input(Edited(), w, r, clipboard, Sel(), sent)
    }

    /** Unread bytes are the ones that were committed. */
    ghost predicate Intact()
      requires Valid()
      reads this, buf
    {
      |sent| == w && Unread() == sent[r..]
    }

    /** consoleinit (console.c:899-900) and zeroed storage. */
    constructor ()
      ensures Valid() && Intact() && State() == BOOT && fresh(buf)
    {
      buf := new char[INPUT_BUF];
      r, w, e, c, selecting, selStart, selEnd, clipboard, undo, sent := 0, 0, 0, 0, false, 0, 0, "", [], "";
    }

    method ClearSelection()
      requires SelectionOk()
      modifies `selecting, `selStart, `selEnd
      ensures Sel() == Cleared(old(Sel())) && !Selected() && SelectionOk()
    {
      if selStart != -1 {
        selStart, selEnd := -1, -1;
      }
      selecting := false;
    }

    method Record(op: Op)
      modifies `undo
      ensures undo == LineEdit.Record(old(undo), op)
    {
      if |undo| < UNDO_BUF {
        undo := undo + [op];
      }
    }

    /** A character goes in at the cursor (console.c:606-620, 802-817). */
    method Insert(ch: char)
      requires Valid() && e < r + INPUT_BUF && !Selected()
      modifies `c, `e, `undo, buf
      ensures Valid() && Unread() == old(Unread()) && Edited() == InsertKey(old(Edited()), ch)
    {
      hide Ring;
      hide Slot;
      hide Relative;
      RecordRelative(undo, LineEdit.Insert(c, ch), w);
      Record(LineEdit.Insert(c, ch));
      InsertAt(buf, r, w, c, e, ch);
      e := e + 1;
      c := c + 1;
    }

    /** Backspace with no selection (console.c:706-723). */
    method EraseBack()
      requires Valid() && !Selected()
      modifies `c, `e, `undo, buf
      ensures Valid() && Unread() == old(Unread()) && Edited() == BackspaceKey(old(Edited()))
    {
      if c > w {
        RecordBack();
        EraseOne();
      }
    }

    /** Its record (console.c:708-714). */
    method RecordBack()
      requires Valid() && c > w
      modifies `undo
      ensures Relative(undo, w) == LineEdit.Record(old(Relative(undo, w)), LineEdit.Delete(c - 1 - w, Line()[c - 1 - w]))
    {
      hide Ring;
      hide Relative;
      var op := LineEdit.Delete(c - 1, buf[Slot(c - 1)]);
      RingAt(buf[..], w, e, c - 1);
      RecordRelative(undo, op, w);
      Record(op);
    }

    method EraseOne()
      requires Valid() && !Selected() && c > w
      modifies `c, `e, buf
      ensures Valid() && Unread() == old(Unread()) && c == old(c) - 1
      ensures Line() == old(Line())[..c - w] + old(Line())[c + 1 - w..]
    {
      hide Ring;
      hide Slot;
      RemoveAt(buf, r, w, c, e, 1);
      c := c - 1;
      e := e - 1;
    }

    /** Where the selection starts and ends in the line (console.c:446-458). */
    method SelectionBounds() returns (s: nat, t: nat)
      requires Valid() && Selected()
      ensures w <= s <= c <= t <= e && t - s <= INPUT_BUF && (s - w, t - w) == Span(State())
    {
      var lo, hi := selStart, selEnd;
      if lo > hi {
        lo, hi := hi, lo;
      }
      if lo < w { lo := w; }
      if hi > e { hi := e; }
      s, t := lo, hi;
    }

    /** delete_selection (console.c:441-502). */
    method DeleteSelection()
      requires Valid()
      modifies this`c, this`e, this`undo, this`selecting, this`selStart, this`selEnd, buf
      ensures Valid() && Unread() == old(Unread()) && State() == Cut(old(State()))
      ensures e <= old(e) && (e == old(e) ==> buf[..] == old(buf[..]))
    {
      hide Ring;
      hide Slot;
      hide Relative;
      hide DeleteSpan;
      if selStart == -1 || selEnd == -1 { return; }
      var s, t := SelectionBounds();
      DeleteNothing(Edited(), s - w);
      ClearSelection();
      if s < t {
        DeleteRange(s, t);
      }
    }

    method DeleteRange(s: nat, t: nat)
      requires Valid() && !Selected() && w <= s < t <= e
      modifies `c, `e, `undo, buf
      ensures Valid() && Unread() == old(Unread()) && e < old(e)
      ensures Edited() == DeleteSpan(old(Edited()), s - w, t - w)
    {
      hide Ring;
      hide Slot;
      hide Relative;
      hide RecordDeletes;
      RecordSpan(s, t);
      RemoveAt(buf, r, w, t, e, t - s);
      e := e - (t - s);
      c := s;
    }

    /** One record for each byte of the selection, while there is room (console.c:469-475). */
    method RecordSpan(s: nat, t: nat)
      requires Valid() && w <= s <= t <= e
      modifies `undo
      ensures Relative(undo, w) == RecordDeletes(old(Relative(undo, w)), Line(), s - w, t - w)
    {
      hide Ring;
      hide Slot;
      hide Relative;
      hide RecordDeletes;
      ghost var text, ops := Line(), Relative(undo, w);
      var k := s;
      while k < t && |undo| < UNDO_BUF
        modifies `undo
        invariant s <= k <= t
        invariant RecordDeletes(Relative(undo, w), text, k - w, t - w) == RecordDeletes(ops, text, s - w, t - w)
      {
        var op := LineEdit.Delete(k, buf[Slot(k)]);
        RingAt(buf[..], w, e, k);
        RecordRelative(undo, op, w);
        RecordStep(Relative(undo, w), text, k - w, t - w);
        undo := undo + [op];
        k := k + 1;
      }
      RecordEnd(Relative(undo, w), text, k - w, t - w);
    }

    /** Ctrl-Z (console.c:734-762). */
    method Undo()
      requires Valid()
      modifies this`c, this`e, this`undo, this`selecting, this`selStart, this`selEnd, buf
      ensures Valid() && Unread() == old(Unread()) && State() == Press(old(State()), CTRL_Z)
    {
      hide Ring;
      hide Relative;
      hide UndoKey;
      Deselect();
      UndoLast();
    }

    method UndoLast()
      requires Valid() && !Selected()
      modifies `c, `e, `undo, buf
      ensures Valid() && Unread() == old(Unread()) && Edited() == UndoKey(old(Edited()))
    {
      hide Ring;
      hide Slot;
      hide Relative;
      if |undo| > 0 {
        var last := undo[|undo| - 1];
        RelativePop(undo, w);
        undo := undo[..|undo| - 1];
        if last.Insert? {
          if last.pos < w || last.pos >= e { return; }
          TakeOut(last.pos);
        }
      }
    }

    /** The character at `pos` goes (console.c:746-760). */
    method TakeOut(pos: nat)
      requires Valid() && !Selected() && w <= pos < e
      modifies `c, `e, buf
      ensures Valid() && Unread() == old(Unread()) && c == pos
      ensures Line() == old(Line())[..pos - w] + old(Line())[pos + 1 - w..]
    {
      hide Ring;
      hide Slot;
      RemoveAt(buf, r, w, pos + 1, e, 1);
      e := e - 1;
      c := pos;
    }

    /** deselect_if_any (console.c:516-522). */
    method Deselect()
      requires SelectionOk()
      modifies `selecting, `selStart, `selEnd
      ensures Sel() == Deselected(old(Sel())) && !Selected() && SelectionOk()
    {
      if selStart != -1 && selEnd != -1 {
        ClearSelection();
      }
    }

    /** Ctrl-H and DEL (console.c:698-733). */
    method Backspace()
      requires Valid()
      modifies this`c, this`e, this`undo, this`selecting, this`selStart, this`selEnd, buf
      ensures Valid() && Unread() == old(Unread()) && State() == EraseKey(old(State()))
    {
      if selStart != -1 && selEnd != -1 {
        DeleteSelection();
        return;
      }
      EraseBack();
    }

    /** Ctrl-V (console.c:595-631). */
    method Paste()
      requires Valid()
      modifies this`c, this`e, this`undo, this`selecting, this`selStart, this`selEnd, buf
      ensures Valid() && Unread() == old(Unread()) && State() == PasteKey(old(State()))
    {
      hide Ring;
      hide Relative;
      hide PasteKeys;
      hide Cut;
      if |clipboard| > 0 {
        DeleteSelection();
        Type(clipboard);
      }
      Deselect();
      ClearSelection();
    }

    /** The loop over the clipboard (console.c:602-626). */
    method Type(clip: string)
      requires Valid() && !Selected()
      modifies `c, `e, `undo, buf
      ensures Valid() && Unread() == old(Unread())
      ensures Edited() == PasteKeys(old(Edited()), clip, if r + INPUT_BUF < w then 0 else r + INPUT_BUF - w)
    {
      hide Ring;
      hide Relative;
      hide InsertKey;
      hide SelectionOk;
      ghost var room := if r + INPUT_BUF < w then 0 else r + INPUT_BUF - w;
      var i := 0;
      while i < |clip|
        modifies `c, `e, `undo, buf
        invariant i <= |clip| && Valid() && Unread() == old(Unread())
        invariant PasteKeys(Edited(), clip[i..], room) == PasteKeys(old(Edited()), clip, room)
      {
        assert clip[i..][1..] == clip[i + 1..];
        if e < r + INPUT_BUF {
          Insert(clip[i]);
        }
        i := i + 1;
      }
    }

    /** Ctrl-S starts a selection and ends it (console.c:537-566). */
    method Select()
      requires Valid()
      modifies `selecting, `selStart, `selEnd
      ensures Valid() && State() == Press(old(State()), CTRL_S)
    {
      hide Ring;
      hide Relative;
      if !selecting {
        ClearSelection();
        selecting, selStart, selEnd := true, c, -1;
      } else {
        selecting, selEnd := false, c;
        if selStart > selEnd {
          selStart, selEnd := selEnd, selStart;
        }
        if selStart == selEnd {
          selStart, selEnd := -1, -1;
        }
      }
    }

    /** The copying loop of Ctrl-C (console.c:584-586). */
    method Clip(s: nat, len: nat) returns (t: string)
      requires Valid() && w <= s && s + len <= e
      ensures t == Line()[s - w..s - w + len]
    {
      hide Ring;
      hide Slot;
      t := "";
      var i := 0;
      while i < len
        invariant i <= len && t == Line()[s - w..s - w + i]
      {
        RingAt(buf[..], w, e, s + i);
        t := t + [buf[Slot(s + i)]];
        i := i + 1;
      }
    }

    /** Ctrl-C (console.c:567-593): the clipboard gets the selected part of the line. */
    method Copy()
      requires Valid()
      modifies `selecting, `selStart, `selEnd, `clipboard
      ensures Valid() && Unread() == old(Unread()) && State() == CopyKey(old(State()))
    {
      hide Ring;
      hide Slot;
      hide Relative;
      hide Span;
      if selStart != -1 && selEnd != -1 {
        var t := SelectedText();
        SetClipboard(t);
      } else {
        ClearSelection();
        SetClipboard("");
      }
    }

    method SetClipboard(t: string)
      requires Valid()
      modifies `clipboard
      ensures Valid() && Unread() == old(Unread()) && State() == old(State()).(clip := t)
    {
      hide SelectionOk;
      hide Relative;
      hide Slot;
      clipboard := t;
      assert Line() == old(Line()) && Unread() == old(Unread());
    }

    method SelectedText() returns (t: string)
      requires Valid() && Selected()
      ensures var (a, b) := Span(State()); t == Line()[a..b]
    {
      hide Ring;
      hide Slot;
      hide Relative;
      hide Span;
      hide SelectionOk;
      hide Sel;
      hide Valid;
      hide State;
      hide Line;
      var lo, hi := SelectionBounds();
      var len := if hi - lo > CLIPBOARD_BUF then CLIPBOARD_BUF else hi - lo;
      t := Clip(lo, len);
    }

    /** The left and right keys (console.c:763-778). */
    method Left()
      requires Valid()
      modifies `c, `selecting, `selStart, `selEnd
      ensures Valid() && Unread() == old(Unread()) && State() == Press(old(State()), KEY_LF)
    {
      hide Ring;
      hide Relative;
      Deselect();
      if c > w {
        c := c - 1;
      }
    }

    method Right()
      requires Valid()
      modifies `c, `selecting, `selStart, `selEnd
      ensures Valid() && Unread() == old(Unread()) && State() == Press(old(State()), KEY_RT)
    {
      hide Ring;
      hide Relative;
      Deselect();
      if c < e {
        c := c + 1;
      }
    }

    /** Ctrl-A (console.c:633-647). */
    method WordLeft()
      requires Valid()
      modifies `c, `selecting, `selStart, `selEnd
      ensures Valid() && Unread() == old(Unread()) && State() == Press(old(State()), CTRL_A)
    {
      hide Ring;
      hide Relative;
      hide WordStart;
      Deselect();
      var k := FindWordStart();
      c := k;
    }

    /** Past the blanks before the cursor, and on to the start of the word there. */
    method FindWordStart() returns (k: nat)
      requires Valid()
      ensures w <= k <= c && k - w == WordStart(Line(), c - w)
    {
      hide SelectionOk;
      hide Ring;
      hide BackOverBlanks;
      hide BackOverWord;
      k := c;
      if c > w {
        k := BackBlanks(c - 1);
        k := BackWord(k);
      }
    }

    method BackBlanks(from: nat) returns (k: nat)
      requires Valid() && w <= from < e
      ensures w <= k <= from && k - w == BackOverBlanks(Line(), from - w)
    {
      hide SelectionOk;
      hide Ring;
      hide Slot;
      ghost var text := Line();
      k := from;
      while k > w && Blank(buf[Slot(k)])
        invariant w <= k <= from && BackOverBlanks(text, k - w) == BackOverBlanks(text, from - w)
      {
        RingAt(buf[..], w, e, k);
        k := k - 1;
      }
      RingAt(buf[..], w, e, k);
    }

    method BackWord(from: nat) returns (k: nat)
      requires Valid() && w <= from <= e
      ensures w <= k <= from && k - w == BackOverWord(Line(), from - w)
    {
      hide SelectionOk;
      hide Ring;
      hide Slot;
      ghost var text := Line();
      k := from;
      while k > w && !Blank(buf[Slot(k - 1)])
        invariant w <= k <= from && BackOverWord(text, k - w) == BackOverWord(text, from - w)
      {
        RingAt(buf[..], w, e, k - 1);
        k := k - 1;
      }
      if k > w { RingAt(buf[..], w, e, k - 1); }
    }

    /** Ctrl-U: the line goes (console.c:676-697). */
    method KillLine()
      requires Valid()
      modifies `c, `e, `undo, `selecting, `selStart, `selEnd
      ensures Valid() && Unread() == old(Unread()) && State() == Press(old(State()), CTRL_U)
    {
      Deselect();
      if e != w {
        c := e;
        while e != w
          modifies `e, `c
          invariant w <= e <= old(e) && c == e
          decreases e - w
        {
          e := e - 1;
          c := c - 1;
        }
      }
      c := w;
      undo := [];
    }

    /** The line and `ch` become readable (console.c:652-654, 794-796). */
    method Commit(ch: char)
      requires Valid() && !Selected()
      modifies `w, `e, `c, `sent, buf
      ensures Valid() && c == w == e == old(e) + 1 && sent == old(sent + Line()) + [ch]
      ensures old(e) < r + INPUT_BUF ==> Unread() == old(Unread() + Line()) + [ch]
      ensures old(Intact()) ==> (Intact() <==> old(e) < r + INPUT_BUF || old(At(buf[..], e)) == ch)
    {
      ghost var mem := buf[..];
      sent := sent + Line() + [ch];
      CommitRing(mem, r, w, e, ch, sent);
      buf[Slot(e)] := ch;
      assert buf[..] == mem[Slot(e) := ch];
      e := e + 1;
      w := e;
      c := w;
    }

    /** A key that is no editing key (console.c:779-827).  The character is put in the line
        without the selection, or that line is committed at a newline or when the ring is
        exactly full, and then the unread bytes survive exactly if there was a free slot for
        the newline, or one that already held it. */
    method Key(ch: char)
      requires Valid() && ch != '\0'
      modifies this, buf
      ensures Valid() && State() == CharKey(old(State()), ch)
      ensures var t := Cut(old(State()));
              if Commits(t, ch) then old(Intact()) ==> (Intact() <==> |t.line.text| < Room(t) || old(At(buf[..], e)) == '\n')
              else Unread() == old(Unread())
    {
      hide Ring;
      hide Relative;
      hide Slot;
      hide Cut;
      hide Committed;
      hide InsertKey;
      ghost var mem, e0 := buf[..], e;
      DeleteSelection();
      assert e >= r + INPUT_BUF ==> buf[..] == mem && e == e0;
      Enter(ch);
      ClearSelection();
    }

    /** The same without a selection (console.c:790-822). */
    method Enter(ch: char)
      requires Valid() && !Selected() && ch != '\0'
      modifies `w, `e, `c, `sent, `undo, buf
      ensures Valid()
      ensures var s := old(State());
              State() == if Commits(s, ch) then Committed(s, '\n', [])
                         else if |s.line.text| < Room(s) then s.(line := InsertKey(s.line, ch)) else s
      ensures if Commits(old(State()), ch) then old(Intact()) ==> (Intact() <==> old(e) < r + INPUT_BUF || old(At(buf[..], e)) == '\n')
              else Unread() == old(Unread())
    {
      hide Ring;
      hide Relative;
      hide Slot;
      hide InsertKey;
      var key := if ch == '\r' then '\n' else ch;
      if key == '\n' || e == r + INPUT_BUF {
        Commit('\n');
        undo := [];
        NoRecords(w);
      } else if e < r + INPUT_BUF {
        Insert(key);
      }
    }

    /** Ctrl-D on an empty line commits an end of file; otherwise it goes past the word at the
        cursor and to the next word, if there is one (console.c:648-671). */
    method EndOfFile()
      requires Valid()
      modifies `w, `e, `c, `sent, `selecting, `selStart, `selEnd, buf
      ensures Valid() && State() == EofKey(old(State()))
      ensures if old(e) == old(w) then old(Intact()) ==> (Intact() <==> old(e) < r + INPUT_BUF || old(At(buf[..], e)) == CTRL_D)
              else Unread() == old(Unread())
    {
      hide Ring;
      hide Slot;
      hide Relative;
      hide NextWord;
      Deselect();
      if e == w {
        BehindRelative(undo, w);
        Commit(CTRL_D);
      } else {
        var k := FindNextWord();
        c := k;
      }
    }

    /** Past the word at the cursor and the blanks behind it. */
    method FindNextWord() returns (k: nat)
      requires Valid()
      ensures w <= k <= e && k - w == NextWord(Line(), c - w)
    {
      hide Ring;
      hide Slot;
      hide SelectionOk;
      hide OverWord;
      hide OverBlanks;
      OverNothing(Line());
      k := c;
      if c < e {
        k := SkipWord(k);
        k := SkipBlanks(k);
        if k >= e {
          k := c;
        }
      }
    }

    method SkipWord(from: nat) returns (k: nat)
      requires Valid() && w <= from <= e
      ensures from <= k <= e && k - w == OverWord(Line(), from - w)
    {
      hide Ring;
      hide Slot;
      hide SelectionOk;
      ghost var text := Line();
      k := from;
      while k < e && !Blank(buf[Slot(k)])
        invariant from <= k <= e && OverWord(text, k - w) == OverWord(text, from - w)
      {
        RingAt(buf[..], w, e, k);
        k := k + 1;
      }
      if k < e { RingAt(buf[..], w, e, k); }
    }

    method SkipBlanks(from: nat) returns (k: nat)
      requires Valid() && w <= from <= e
      ensures from <= k <= e && k - w == OverBlanks(Line(), from - w)
    {
      hide Ring;
      hide Slot;
      hide SelectionOk;
      ghost var text := Line();
      k := from;
      while k < e && Blank(buf[Slot(k)])
        invariant from <= k <= e && OverBlanks(text, k - w) == OverBlanks(text, from - w)
      {
        RingAt(buf[..], w, e, k);
        k := k + 1;
      }
      if k < e { RingAt(buf[..], w, e, k); }
    }

    /** The editing keys: they leave the unread bytes alone. */
    method Edit(ch: char)
      requires Valid() && ch != '\t' && ch != CTRL_D && !IsCharKey(ch)
      modifies this, buf
      ensures Valid() && State() == Press(old(State()), ch) && Unread() == old(Unread())
    {
      hide Ring;
      hide Relative;
      hide CharKey;
      hide PasteKey;
      hide CopyKey;
      hide EofKey;
      hide EraseKey;
      hide LineKey;
      hide Marked;
      if ch == CTRL_S {
        Select();
      } else if ch == CTRL_C {
        Copy();
      } else if ch == CTRL_V {
        Paste();
      } else if ch == CTRL_A {
        WordLeft();
      } else if ch == CTRL_P {
        Procdump();
      } else if ch == CTRL_U {
        KillLine();
      } else if ch == CTRL_H || ch == DEL {
        Backspace();
      } else if ch == CTRL_Z {
        Undo();
      } else if ch == KEY_LF {
        Left();
      } else if ch == KEY_RT {
        Right();
      } else {
        NoKey(State());
      }
    }

    /** One turn of consoleintr (console.c:530-825) for any key but tab.  Unread bytes survive
        it exactly if it does not commit a byte at a full ring, or the slot already held that byte. */
    method Turn(ch: char)
      requires Valid() && ch != '\t'
      modifies this, buf
      ensures Valid() && State() == Press(old(State()), ch)
      ensures old(Intact()) ==> (Intact() <==> !Overwrites(old(State()), ch) || old(At(buf[..], e)) == Ender(ch))
    {
      hide Ring;
      hide Relative;
      hide Slot;
      hide CharKey;
      hide EofKey;
      hide Cut;
      if ch == CTRL_D {
        if e != w { EofSends(State()); }
        EndOfFile();
      } else if IsCharKey(ch) {
        if !Commits(Cut(State()), ch) { CharSends(State(), ch); }
        Key(ch);
      } else {
        EditSendsNothing(State(), ch);
        Edit(ch);
      }
    }

    /** Ctrl-P, without the dump (console.c:672-675). */
    method Procdump()
      requires Valid()
      modifies `selecting, `selStart, `selEnd
      ensures Valid() && Unread() == old(Unread()) && State() == Press(old(State()), CTRL_P)
    {
      Deselect();
    }

    /** consoleintr (console.c:524-834) on the characters that getc gives it. */
    method Intr(chars: string)
      requires Valid() && '\t' !in chars
      modifies this, buf
      ensures Valid() && State() == Run(old(State()), Keys(chars))
      ensures old(Intact()) && Spares(old(State()), Keys(chars)) ==> Intact()
    {
      hide Ring;
      hide Slot;
      hide Relative;
      hide Press;
      hide Overwrites;
      hide Spares;
      var i := 0;
      while i < |chars|
        invariant i <= |chars| && Valid() && State() == Run(old(State()), Keys(chars[..i]))
        invariant old(Intact()) && Spares(old(State()), Keys(chars)) ==> Intact()
      {
        RunAppend(old(State()), Keys(chars[..i]), LineEdit.Key(chars[i]));
        assert Keys(chars[..i + 1]) == Keys(chars[..i]) + [LineEdit.Key(chars[i])];
        if Spares(old(State()), Keys(chars)) { SparesKey(old(State()), chars, i); }
        Turn(chars[i]);
        i := i + 1;
      }
      assert chars[..i] == chars;
    }

    /** consoleread from when it has the lock to when it sleeps or returns (console.c:845-868),
        with `n` of `target` bytes still wanted: up to a newline, or before an end of file,
        which stays for the next read if this one has something.  A killed process gives up
        where it would sleep. */
    method Read(n: nat, target: nat, killed: bool) returns (dst: string, asleep: bool, fail: bool)
      requires Valid() && n <= target
      modifies `r
      ensures Valid() && State() == old(State()).(r := r) && (old(Intact()) ==> Intact())
      ensures |dst| <= n && dst <= old(Unread()) && (forall i :: 0 <= i < |dst| ==> dst[i] != CTRL_D && (dst[i] == '\n' ==> i == |dst| - 1))
      ensures (asleep ==> !killed) && (fail ==> killed)
      ensures asleep || fail <==> |dst| < n && dst == old(Unread()) && (dst != "" ==> dst[|dst| - 1] != '\n')
      ensures !asleep && !fail ==>
                || |dst| == n || (dst != "" && dst[|dst| - 1] == '\n')
                || (|dst| < |old(Unread())| && old(Unread())[|dst|] == CTRL_D)
      ensures r == old(r) + |dst| + if !asleep && !fail && n == target > 0 && dst == "" then 1 else 0
    {
      hide Ring;
      hide Slot;
      hide SelectionOk;
      dst, asleep, fail := "", false, false;
      ghost var unread := Unread();
      var left := n;
      while left > 0
        invariant left >= 0 && left + |dst| == n && r == old(r) + |dst| <= w && dst <= unread
        invariant forall i :: 0 <= i < |dst| ==> dst[i] != CTRL_D && dst[i] != '\n'
      {
        if r == w {
          asleep, fail := !killed, killed;
          break;
        }
        RingAt(buf[..], old(r), w, r);
        assert dst + [buf[Slot(r)]] <= unread;
        var ch := buf[Slot(r)];
        r := r + 1;
        if ch == CTRL_D {
          if left < target {
            r := r - 1;
          }
          break;
        }
        dst := dst + [ch];
        left := left - 1;
        if ch == '\n' { break; }
      }
      IntactRead(buf[..], old(r), r, w, sent);
    }
  }

  lemma IntactRead(mem: string, r0: nat, r: nat, w: nat, sent: string)
    requires |mem| == INPUT_BUF && r0 <= r <= w
    ensures |sent| == w && Ring(mem, r0, w) == sent[r0..] ==> Ring(mem, r, w) == sent[r..]
  {
  }

  lemma CommitRing(mem: string, r: nat, w: nat, e: nat, ch: char, sent: string)
    requires |mem| == INPUT_BUF && r <= w <= e && |sent| >= e + 1 - w && sent[|sent| - (e + 1 - w)..] == Ring(mem, w, e) + [ch]
    ensures e < r + INPUT_BUF ==> Ring(mem[Slot(e) := ch], r, e + 1) == Ring(mem, r, w) + Ring(mem, w, e) + [ch]
    ensures |sent| == e + 1 && sent[r..w] == Ring(mem, r, w) ==>
              (Ring(mem[Slot(e) := ch], r, e + 1) == sent[r..] <==> e < r + INPUT_BUF || At(mem, e) == ch)
  {
    hide Ring;
    hide Slot;
    RingSplit(mem, r, w, e);
    var line := Ring(mem, r, e) + [ch];
    RingOver(mem, r, e, ch);
    if |sent| == e + 1 && sent[r..w] == Ring(mem, r, w) {
      assert sent[r..] == sent[r..w] + sent[w..];
      assert sent[r..] == line;
    }
  }

  /** Storing the byte behind a run of the ring adds it, unless that overwrites the run. */
  lemma RingOver(mem: string, r: nat, e: nat, ch: char)
    requires |mem| == INPUT_BUF && r <= e
    ensures Ring(mem[Slot(e) := ch], r, e + 1) == Ring(mem, r, e) + [ch] <==> e < r + INPUT_BUF || At(mem, e) == ch
  {
    hide Ring;
    var mem', line := mem[Slot(e) := ch], Ring(mem, r, e) + [ch];
    RingSplit(mem, r, e, e + 1);
    RingAt(mem, r, e + 1, e);
    if e < r + INPUT_BUF {
      Stored(mem, r, e + 1, e, ch);
      var run := Ring(mem, r, e + 1);
      assert run == Ring(mem, r, e) + Ring(mem, e, e + 1);
      assert run[e - r := ch] == line;
    } else if At(mem, e) == ch {
      assert mem' == mem;
      assert Ring(mem, e, e + 1) == [ch];
    } else {
      var p := e - INPUT_BUF;
      RingAt(mem, r, e, p);
      RingAt(mem', r, e + 1, p);
      assert Slot(p) == Slot(e);
      assert line[p - r] == At(mem, e) != ch == Ring(mem', r, e + 1)[p - r];
    }
  }

  lemma OverNothing(text: string)
    ensures OverBlanks(text, OverWord(text, |text|)) == |text|
  {
  }

  lemma NoKey(s: Input)
    requires Good(s)
    ensures Press(s, '\0') == s
  {
  }

  /** The byte that a committing key puts behind the line. */
  function Ender(ch: char): char {
    if ch == CTRL_D then CTRL_D else '\n'
  }

  lemma CharSends(s: Input, ch: char)
    requires Good(s) && ch != '\0' && !Commits(Cut(s), ch)
    ensures var t := CharKey(s, ch); t.w == s.w && t.r == s.r && t.sent == s.sent
  {
  }

  lemma EofSends(s: Input)
    requires Good(s) && s.line.text != ""
    ensures var t := EofKey(s); t.w == s.w && t.r == s.r && t.sent == s.sent
  {
  }

  lemma NoRecords(w: nat)
    ensures Relative([], w) == []
  {
  }

  lemma SparesKey(s: Input, chars: string, i: nat)
    requires Good(s) && i < |chars| && Spares(s, Keys(chars))
    ensures !Overwrites(Run(s, Keys(chars[..i])), chars[i])
  {
    hide Run;
    hide Overwrites;
    assert Keys(chars)[..i] == Keys(chars[..i]);
    assert Keys(chars)[i] == LineEdit.Key(chars[i]);
  }

  function Keys(chars: string): seq<Event> {
    seq(|chars|, i requires 0 <= i < |chars| => LineEdit.Key(chars[i]))
  }

  /** One place further on. */
  lemma BehindRelative(ops: seq<Op>, w: nat)
    ensures Relative(ops, w + 1) == Behind(Relative(ops, w))
  {
  }

  lemma DeleteNothing(s: Line, a: nat)
    requires s.cur <= |s.text| && a <= |s.text|
    ensures DeleteSpan(s, a, a) == s
  {
  }

  lemma RecordStep(ops: seq<Op>, text: string, a: nat, b: nat)
    requires a < b <= |text|
    ensures RecordDeletes(ops, text, a, b) == RecordDeletes(LineEdit.Record(ops, LineEdit.Delete(a, text[a])), text, a + 1, b)
  {
  }

  lemma {:induction false} RecordEnd(ops: seq<Op>, text: string, a: nat, b: nat)
    requires a <= b <= |text| && (a < b ==> |ops| >= UNDO_BUF)
    ensures RecordDeletes(ops, text, a, b) == ops
    decreases b - a
  {
    if a < b { RecordEnd(ops, text, a + 1, b); }
  }

  /** A character typed at the end of a line of its kind. */
  lemma TypedAtEnd(s: Input, ch: char)
    requires Good(s) && NothingSelected(s) && ch !in {'\0', '\n', '\r'} && s.line.cur == |s.line.text| < Room(s)
    requires forall i :: 0 <= i < |s.line.text| ==> s.line.text[i] == ch
    ensures !Commits(Cut(s), ch)
    ensures var t := CharKey(s, ch);
            && NothingSelected(t) && t.line.cur == |t.line.text| == |s.line.text| + 1 && t.w == s.w && t.r == s.r && t.sent == s.sent
            && forall i :: 0 <= i < |t.line.text| ==> t.line.text[i] == ch
  {
    CutNothing(s);
  }

  lemma FullCommits(s: Input, ch: char)
    requires Good(s) && NothingSelected(s) && ch == '\n' && |s.line.text| == Room(s)
    ensures Commits(Cut(s), ch) && |Cut(s).line.text| == Room(Cut(s))
    ensures CharKey(s, ch).r == s.r && |CharKey(s, ch).sent| == |s.sent| + |s.line.text| + 1
  {
    CutNothing(s);
  }

  /** A line of INPUT_BUF characters and a newline: what is read is not what was typed. */
  method FullLineLosesByte() returns (con: Console)
    ensures fresh(con) && con.Valid() && !con.Intact() && con.r == 0 && |con.sent| == INPUT_BUF + 1
  {
    hide Ring;
    hide Relative;
    hide CharKey;
    hide Cut;
    hide Commits;
    con := new Console();
    while con.e < INPUT_BUF
      invariant con.Valid() && fresh(con) && fresh(con.buf) && con.Intact() && con.r == con.w == 0 && con.sent == "" && con.e <= INPUT_BUF
      invariant NothingSelected(con.State()) && con.c == con.e && forall i :: 0 <= i < con.e ==> con.Line()[i] == 'a'
      decreases INPUT_BUF - con.e
    {
      TypedAtEnd(con.State(), 'a');
      con.Key('a');
    }
    RingAt(con.buf[..], 0, con.e, 0);
    FullCommits(con.State(), '\n');
    con.Key('\n');
  }
}

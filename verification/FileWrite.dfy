/** filewrite (file.c): a write cut into pieces that fit a log transaction. */
module FileWrite {
  import opened Sequences
  import opened Blocks
  import opened FsLayout
  import opened FsSpec
  import opened FsBytes
  import opened FileSystem
  import opened LogSpec

  /** The largest piece: (MAXOPBLOCKS-1-1-2)/2 blocks (file.c:133). */
  const MAX_CHUNK := ((MAXOPBLOCKS - 1 - 1 - 2) / 2) * 512

  /** An open inode-backed file. */
  class OpenFile {
    const inum: nat
    const writable: bool
    var off: nat

    constructor (inum: nat, writable: bool)
      ensures this.inum == inum && this.writable == writable && off == 0
    {
      this.inum, this.writable, off := inum, writable, 0;
    }
  }

  /** Every piece touches at most MAXOPBLOCKS blocks, at whatever offset. */
  lemma ChunkFitsTransaction(off: nat, n: nat)
    requires n <= MAX_CHUNK
    ensures LogBudget(off, n) <= MAXOPBLOCKS
  {
  }

  /** `now` is `c` with the first `i` bytes of `addr` written over it. */
  ghost predicate Spliced(now: seq<Byte>, c: seq<Byte>, off: nat, addr: seq<Byte>, i: nat) {
    if i == 0 then now == c else off <= |c| && i <= |addr| && now == Splice(c, off, addr[..i])
  }

  lemma AppendPiece(now: seq<Byte>, c: seq<Byte>, off: nat, addr: seq<Byte>, i: nat, n1: nat)
    requires off <= |c| && off + i <= |now| && i + n1 <= |addr| && n1 > 0 && Spliced(now, c, off, addr, i)
    ensures Spliced(Splice(now, off + i, addr[i..i + n1]), c, off, addr, i + n1)
  {
  }

  /** Read back: the written range has the written bytes, and the rest is as it was. */
  lemma SpliceReadBack(c: seq<Byte>, off: nat, s: seq<Byte>)
    requires off <= |c|
    ensures Splice(c, off, s)[off..off + |s|] == s
    ensures Splice(c, off, s)[..off] == c[..off]
    ensures off + |s| <= |c| ==> Splice(c, off, s)[off + |s|..] == c[off + |s|..]
    ensures |Splice(c, off, s)| == if off + |s| > |c| then off + |s| else |c|
  {
  }

  /** The file system between two transactions. */
  datatype Moment = Moment(blocks: Disk, inodes: seq<Inode>, owner: Owner)

  /** Between `m` and `m'`, one operation on file `inum` has logged all it changed, within what
      begin_op reserved for it. */
  ghost predicate Transaction(sb: SuperBlock, m: Moment, m': Moment, inum: nat, logged: set<nat>) {
    LoggedOnly(sb, m.blocks, m'.blocks, logged) && |logged| <= MAXOPBLOCKS && OthersKept(sb, m, m', inum)
  }

  /** Every other file is what it was. */
  ghost predicate OthersKept(sb: SuperBlock, m: Moment, m': Moment, inum: nat) {
    |m'.inodes| == |m.inodes| && forall j :: 0 <= j < |m.inodes| && j != inum && SettledAt(sb, m.blocks, m.inodes, j) ==>
      && SettledAt(sb, m'.blocks, m'.inodes, j) && m'.inodes[j] == m.inodes[j]
      && Contents(m'.blocks, m'.inodes[j]) == Contents(m.blocks, m.inodes[j])
  }

  /** At each moment the file system is in order, and `c` has been written over with as much
      of `addr` as `at` says. */
  ghost predicate MomentOk(sb: SuperBlock, m: Moment, inum: nat, c: seq<Byte>, off: nat, addr: seq<Byte>, at: nat) {
    && Own(sb, m.blocks, m.inodes, m.owner) && SettledAt(sb, m.blocks, m.inodes, inum)
    && Spliced(Contents(m.blocks, m.inodes[inum]), c, off, addr, at)
  }

  /** How many bytes the first `k` pieces are. */
  function Upto(addr: seq<Byte>, k: nat): nat {
    Min(k * MAX_CHUNK, |addr|)
  }

  /** A chain of transactions: each writes the next piece, and `writes` are its log_writes. */
  ghost predicate History(sb: SuperBlock, inum: nat, c: seq<Byte>, off: nat, addr: seq<Byte>,
                          moments: seq<Moment>, logs: seq<set<nat>>, writes: seq<seq<Logged>>) {
    && |moments| == |logs| + 1 && |writes| == |logs| && (|logs| > 0 ==> (|logs| - 1) * MAX_CHUNK < |addr|)
    && (forall k :: 0 <= k < |moments| ==> MomentOk(sb, moments[k], inum, c, off, addr, Upto(addr, k)))
    && (forall k {:trigger logs[k]} :: 0 <= k < |logs| ==> Transaction(sb, moments[k], moments[k + 1], inum, logs[k]))
    && (forall k {:trigger writes[k]} :: 0 <= k < |logs| ==> Traced(sb, moments[k].blocks, moments[k + 1].blocks, logs[k], writes[k]))
  }

  lemma HistoryStarts(sb: SuperBlock, inum: nat, off: nat, addr: seq<Byte>, m: Moment)
    requires Own(sb, m.blocks, m.inodes, m.owner) && SettledAt(sb, m.blocks, m.inodes, inum)
    ensures History(sb, inum, Contents(m.blocks, m.inodes[inum]), off, addr, [m], [], [])
  {
    hide Own;
    hide FileOk;
    hide GetInode;
  }

  lemma HistoryGrows(sb: SuperBlock, inum: nat, c: seq<Byte>, off: nat, addr: seq<Byte>, moments: seq<Moment>, logs: seq<set<nat>>, writes: seq<seq<Logged>>,
                     m: Moment, logged: set<nat>, ws: seq<Logged>)
    requires History(sb, inum, c, off, addr, moments, logs, writes) && |logs| * MAX_CHUNK < |addr|
    requires Transaction(sb, moments[|logs|], m, inum, logged) && Traced(sb, moments[|logs|].blocks, m.blocks, logged, ws)
    requires MomentOk(sb, m, inum, c, off, addr, Upto(addr, |logs| + 1))
    ensures History(sb, inum, c, off, addr, moments + [m], logs + [logged], writes + [ws])
  {
    hide Transaction;
    hide MomentOk;
    hide Traced;
  }

  /** How many of `n` bytes at `off` are in the pieces that writei accepts: all of them, none, or
      the whole pieces that end within the largest file. */
  function Fitting(size: nat, off: nat, n: nat): (m: nat)
    ensures m <= n
  {
    if n == 0 || Fits(size, off, n) then n
    else if off > size || off > MAXBYTES then 0
    else (MAXBYTES - off) / MAX_CHUNK * MAX_CHUNK
  }

  /** The first piece that does not fit ends the pieces that do. */
  lemma FittingPiece(size: nat, off: nat, n: nat, k: nat)
    requires k * MAX_CHUNK < n && size <= MAXBYTES && (k == 0 || Fits(size, off, k * MAX_CHUNK))
    ensures var i := k * MAX_CHUNK; var next := i + Min(n - i, MAX_CHUNK);
            if Fits(size, off, next) then next <= Fitting(size, off, n) else Fitting(size, off, n) == i
  {
    assert MAX_CHUNK == 1536;
    if off <= size && off + n > MAXBYTES {
      var room := MAXBYTES - off;
      var q := room / 1536;
      assert room == 1536 * q + room % 1536;
      if Fits(size, off, k * 1536 + Min(n - k * 1536, 1536)) {
        assert k + 1 <= q;
      } else {
        assert q <= k;
      }
    }
  }

  ghost function Now(fs: FileSystem): Moment
    reads fs
  {
    Moment(fs.blocks, fs.inodes, fs.owner)
  }

  /** One transaction of filewrite (file.c:140-145): writei at the file's offset. */
  method WritePiece(fs: FileSystem, f: OpenFile, piece: seq<Byte>) returns (w: Io)
    requires fs.Valid() && f.inum < |fs.inodes| && f.off < WORD_LIMIT && |piece| <= MAX_CHUNK
    requires fs.inodes[f.inum].kind != T_DEV && fs.Settled(f.inum)
    modifies fs, f
    ensures !w.ToDevice? && (w.Fail? <==> !Fits(old(fs.inodes)[f.inum].size, old(f.off), |piece|))
    ensures w.Fail? || (w.Panic? <==> !HasRoom(fs.sb, old(fs.blocks), old(fs.inodes)[f.inum], old(fs.owner), Reach(old(f.off), old(f.off) + |piece|)))
    ensures w.Panic? ==> Full(fs.sb, fs.blocks)
    ensures w.Count? ==> f.inum < |fs.inodes| && Took(old(fs.blocks), old(fs.inodes)[f.inum], old(fs.owner), fs.blocks, fs.inodes[f.inum], fs.owner, Reach(old(f.off), f.off))
    ensures w.Fail? ==> f.off == old(f.off) && fs.blocks == old(fs.blocks) && fs.inodes == old(fs.inodes) && fs.owner == old(fs.owner)
    ensures w.Count? ==>
              && w.n == |piece| && f.off == old(f.off) + |piece| && Fits(old(fs.inodes)[f.inum].size, old(f.off), |piece|)
              && fs.Valid() && |fs.inodes| == |old(fs.inodes)| && fs.Settled(f.inum) && fs.inodes[f.inum].kind != T_DEV
              && Contents(fs.blocks, fs.inodes[f.inum]) == Splice(old(Contents(fs.blocks, fs.inodes[f.inum])), old(f.off), piece)
              && f.off <= fs.inodes[f.inum].size
              && Transaction(fs.sb, old(Now(fs)), Now(fs), f.inum, fs.logged)
              && Traced(fs.sb, old(fs.blocks), fs.blocks, fs.logged, fs.writes)
  {
    hide Own;
    hide Has;
    hide ByteAt;
    hide GetInode;
    hide LogBudget;
    hide Took;
    hide HasRoom;
    hide Reach;
    hide Full;
    hide Contents;
    hide Replay;
    hide LoggedOnly;
    ChunkFitsTransaction(f.off, |piece|);
    fs.Begin();
    ghost var touched;
    w, touched := fs.Writei(f.inum, piece, f.off);
    if w.Count? {
      f.off := f.off + w.n;
      Within(fs.logged, touched);
    }
  }

  /** The loop of filewrite (file.c:134-152).  `moments` are the states between its
      transactions, `logs` and `writes` what each of them logs. */
  method WritePieces(fs: FileSystem, f: OpenFile, addr: seq<Byte>)
    returns (r: Io, ghost moments: seq<Moment>, ghost logs: seq<set<nat>>, writes: seq<seq<Logged>>)
    requires fs.Valid() && f.inum < |fs.inodes| && f.off < WORD_LIMIT && |addr| < WORD_LIMIT
    requires fs.inodes[f.inum].kind != T_DEV && fs.Settled(f.inum)
    modifies fs, f
    ensures History(fs.sb, f.inum, old(Contents(fs.blocks, fs.inodes[f.inum])), old(f.off), addr, moments, logs, writes) && moments[0] == old(Now(fs))
    ensures !r.Panic? ==> fs.Valid() && f.inum < |fs.inodes| && fs.Settled(f.inum) && moments[|logs|] == Now(fs)
    ensures !r.Panic? ==> Upto(addr, |logs|) == Fitting(old(fs.inodes)[f.inum].size, old(f.off), |addr|) && f.off == old(f.off) + Upto(addr, |logs|)
    ensures !r.Panic? ==> r == if Upto(addr, |logs|) == |addr| then Count(|addr|) else Fail
    ensures r.Panic? ==> Full(fs.sb, fs.blocks)
    ensures r.Panic? <==> var q := old(f.off) + Fitting(old(fs.inodes)[f.inum].size, old(f.off), |addr|);
                          !HasRoom(fs.sb, old(fs.blocks), old(fs.inodes)[f.inum], old(fs.owner), Reach(old(f.off), q))
  {
    hide Took;
    hide HasRoom;
    hide Reach;
    hide Full;
    hide Own;
    hide Has;
    hide ByteAt;
    hide GetInode;
    hide Transaction;
    hide Contents;
    hide Spliced;
    hide History;
    hide Fitting;
    hide Underway;
    hide Upto;
    moments, logs, writes := [Now(fs)], [], [];
    var n, i := |addr|, 0;
    ghost var m0, c := Now(fs), Contents(fs.blocks, fs.inodes[f.inum]);
    WriteStarts(fs, f, addr);
    UptoNone(addr);
    FittingNone(|c|, f.off);
    while i < n
      invariant 0 <= i <= n && i == Upto(addr, |logs|) && Underway(fs, f, m0, c, old(f.off), addr, moments, logs, writes)
      invariant i <= Fitting(|c|, old(f.off), n)
    {
      var n1 := Min(n - i, MAX_CHUNK);
      UptoNext(addr, |logs|);
      WriteStops(fs, f, m0, c, old(f.off), addr, moments, logs, writes);
      FittingPiece(|c|, old(f.off), n, |logs|);
      r, moments, logs, writes := WriteNext(fs, f, addr, i, n1, m0, c, old(f.off), moments, logs, writes);
      if !r.Count? {
        if r.Fail? {
          WriteStops(fs, f, m0, c, old(f.off), addr, moments, logs, writes);
        }
        return;
      }
      i := i + n1;
    }
    WriteStops(fs, f, m0, c, old(f.off), addr, moments, logs, writes);
    r := Count(n);
  }

  lemma UptoNone(addr: seq<Byte>)
    ensures Upto(addr, 0) == 0
  {
  }

  lemma UptoNext(addr: seq<Byte>, k: nat)
    requires Upto(addr, k) < |addr|
    ensures k * MAX_CHUNK == Upto(addr, k) && Upto(addr, k + 1) == Upto(addr, k) + Min(|addr| - Upto(addr, k), MAX_CHUNK)
  {
  }

  lemma FittingNone(size: nat, off: nat)
    ensures Fitting(size, off, 0) == 0
  {
  }

  /** What holds between the transactions of a write that began at moment `m0`, with contents
      `c` and offset `off`. */
  ghost predicate Underway(fs: FileSystem, f: OpenFile, m0: Moment, c: seq<Byte>, off: nat, addr: seq<Byte>,
                           moments: seq<Moment>, logs: seq<set<nat>>, writes: seq<seq<Logged>>)
    reads fs, f
  {
    var i := Upto(addr, |logs|);
    && f.off == off + i && f.off < WORD_LIMIT && f.inum < |m0.inodes| && |c| <= MAXBYTES
    && fs.Valid() && f.inum < |fs.inodes| && fs.Settled(f.inum) && fs.inodes[f.inum].kind != T_DEV
    && (if i == 0 then fs.inodes[f.inum].size == |c| else Fits(|c|, off, i) && f.off <= fs.inodes[f.inum].size)
    && fs.inodes[f.inum].size <= MAXBYTES && Spliced(Contents(fs.blocks, fs.inodes[f.inum]), c, off, addr, i)
    && |moments| == |logs| + 1 && History(fs.sb, f.inum, c, off, addr, moments, logs, writes)
    && moments[0] == m0 && moments[|logs|] == Now(fs)
    && Took(m0.blocks, m0.inodes[f.inum], m0.owner, fs.blocks, fs.inodes[f.inum], fs.owner, Reach(off, f.off))
  }

  lemma WriteStarts(fs: FileSystem, f: OpenFile, addr: seq<Byte>)
    requires fs.Valid() && f.inum < |fs.inodes| && f.off < WORD_LIMIT && fs.inodes[f.inum].kind != T_DEV && fs.Settled(f.inum)
    ensures Underway(fs, f, Now(fs), Contents(fs.blocks, fs.inodes[f.inum]), f.off, addr, [Now(fs)], [], [])
  {
    hide Own;
    hide GetInode;
    hide History;
    hide Took;
    NothingWritten(Contents(fs.blocks, fs.inodes[f.inum]), f.off, addr);
    HistoryStarts(fs.sb, f.inum, f.off, addr, Now(fs));
    ReachNothing(f.off);
    TookNone(fs.sb, fs.blocks, fs.inodes, fs.owner, f.inum, Reach(f.off, f.off));
  }

  /** What has been written had room. */
  lemma WriteStops(fs: FileSystem, f: OpenFile, m0: Moment, c: seq<Byte>, off: nat, addr: seq<Byte>, moments: seq<Moment>, logs: seq<set<nat>>, writes: seq<seq<Logged>>)
    requires Underway(fs, f, m0, c, off, addr, moments, logs, writes)
    ensures f.inum < |m0.inodes| && HasRoom(fs.sb, m0.blocks, m0.inodes[f.inum], m0.owner, Reach(off, f.off))
    ensures History(fs.sb, f.inum, c, off, addr, moments, logs, writes)
    ensures |moments| == |logs| + 1 && moments[0] == m0 && moments[|logs|] == Now(fs) && f.off == off + Upto(addr, |logs|)
    ensures fs.Valid() && f.inum < |fs.inodes| && fs.Settled(f.inum) && |c| <= MAXBYTES
    ensures Upto(addr, |logs|) == 0 || Fits(|c|, off, Upto(addr, |logs|))
  {
    hide Own;
    hide GetInode;
    hide History;
    hide Took;
    hide HasRoom;
    hide Reach;
    RoomWas(fs.sb, m0.blocks, m0.inodes[f.inum], m0.owner, fs.blocks, fs.inodes, f.inum, fs.owner, Reach(off, f.off));
  }

  /** The next transaction of the loop. */
  method WriteNext(fs: FileSystem, f: OpenFile, addr: seq<Byte>, i: nat, n1: nat, ghost m0: Moment, ghost c: seq<Byte>, ghost off: nat,
                   ghost moments: seq<Moment>, ghost logs: seq<set<nat>>, writes: seq<seq<Logged>>)
    returns (r: Io, ghost moments': seq<Moment>, ghost logs': seq<set<nat>>, writes': seq<seq<Logged>>)
    requires Underway(fs, f, m0, c, off, addr, moments, logs, writes)
    requires i == |logs| * MAX_CHUNK < |addr| && n1 == Min(|addr| - i, MAX_CHUNK)
    modifies fs, f
    ensures r.Count? ==> Underway(fs, f, m0, c, off, addr, moments', logs', writes') && |logs'| == |logs| + 1
    ensures !r.Count? ==> moments' == moments && logs' == logs && writes' == writes
    ensures !r.ToDevice? && (r.Fail? <==> !Fits(|c|, off, i + n1))
    ensures r.Fail? ==> Underway(fs, f, m0, c, off, addr, moments, logs, writes)
    ensures r.Panic? ==> Full(fs.sb, fs.blocks)
    ensures r.Panic? ==> forall q: nat :: q >= off + i + n1 ==> !HasRoom(fs.sb, m0.blocks, m0.inodes[f.inum], m0.owner, Reach(off, q))
  {
    hide Own;
    hide FileOk;
    hide GetInode;
    hide Transaction;
    hide Traced;
    hide Contents;
    hide Spliced;
    hide History;
    hide Took;
    hide HasRoom;
    hide Reach;
    hide Full;
    moments', logs', writes' := moments, logs, writes;
    ghost var now := Contents(fs.blocks, fs.inodes[f.inum]);
    forall q: nat | q >= off + i + n1
      ensures HasRoom(fs.sb, m0.blocks, m0.inodes[f.inum], m0.owner, Reach(off, q)) ==>
                HasRoom(fs.sb, fs.blocks, fs.inodes[f.inum], fs.owner, Reach(f.off, f.off + n1))
    {
      RoomOnward(fs.sb, m0.blocks, m0.inodes[f.inum], m0.owner, fs.blocks, fs.inodes[f.inum], fs.owner, off, f.off, f.off + n1, q);
    }
    RoomOnward(fs.sb, m0.blocks, m0.inodes[f.inum], m0.owner, fs.blocks, fs.inodes[f.inum], fs.owner, off, f.off, f.off + n1, f.off + n1);
    r := WritePiece(fs, f, addr[i..i + n1]);
    if r.Count? {
      AppendPiece(now, c, off, addr, i, n1);
      HistoryGrows(fs.sb, f.inum, c, off, addr, moments, logs, writes, Now(fs), fs.logged, fs.writes);
      moments', logs', writes' := moments + [Now(fs)], logs + [fs.logged], writes + [fs.writes];
    }
  }

  lemma NothingWritten(c: seq<Byte>, off: nat, addr: seq<Byte>)
    ensures Spliced(c, c, off, addr, 0)
  {
  }

  /** filewrite on an inode (file.c:118-156): the bytes of the pieces that fit, and the count if
      those are all, or -1; or the panic of a full disk. */
  method Filewrite(fs: FileSystem, f: OpenFile, addr: seq<Byte>)
    returns (r: Io, ghost moments: seq<Moment>, ghost logs: seq<set<nat>>, writes: seq<seq<Logged>>)
    requires fs.Valid() && f.inum < |fs.inodes| && f.off < WORD_LIMIT && |addr| < WORD_LIMIT
    requires fs.inodes[f.inum].kind != T_DEV && fs.Settled(f.inum)
    modifies fs, f
    ensures !f.writable ==> r.Fail? && logs == [] && fs.blocks == old(fs.blocks) && fs.inodes == old(fs.inodes) && f.off == old(f.off)
    ensures r.Panic? ==> Full(fs.sb, fs.blocks)
    ensures var fit := Fitting(old(fs.inodes)[f.inum].size, old(f.off), |addr|);
            && (r.Panic? <==> f.writable && !HasRoom(fs.sb, old(fs.blocks), old(fs.inodes)[f.inum], old(fs.owner), Reach(old(f.off), old(f.off) + fit)))
            && (r.Count? <==> f.writable && !r.Panic? && fit == |addr|) && (r.Count? ==> r.n == |addr|)
            && (f.writable && !r.Panic? ==> f.off == old(f.off) + fit && Upto(addr, |logs|) == fit)
    ensures !r.Panic? && f.writable ==>
              var fit := Fitting(old(fs.inodes)[f.inum].size, old(f.off), |addr|);
              && fs.Valid() && f.inum < |fs.inodes| && fs.Settled(f.inum)
              && Spliced(Contents(fs.blocks, fs.inodes[f.inum]), old(Contents(fs.blocks, fs.inodes[f.inum])), old(f.off), addr, fit)
    ensures History(fs.sb, f.inum, old(Contents(fs.blocks, fs.inodes[f.inum])), old(f.off), addr, moments, logs, writes) && moments[0] == old(Now(fs))
    ensures !r.Panic? ==> moments[|logs|] == Now(fs)
  {
    hide Own;
    hide GetInode;
    hide HasRoom;
    hide Reach;
    hide Full;
    hide Fitting;
    hide Spliced;
    if !f.writable {
      HistoryStarts(fs.sb, f.inum, f.off, addr, Now(fs));
      return Fail, [Now(fs)], [], [];
    }
    r, moments, logs, writes := WritePieces(fs, f, addr);
    assert MomentOk(fs.sb, moments[|logs|], f.inum, old(Contents(fs.blocks, fs.inodes[f.inum])), old(f.off), addr, Upto(addr, |logs|));
  }
}

/** The on-disk redo log of kernel/log.c as pure data: which block writes
    commit() and recover_from_log() issue, in which order, and what a disk means
    to the system that will boot from it after a crash. */
module RedoLog {
  import opened Common
  import opened Blocks

  const LOGSIZE := 30
  const MAXOPBLOCKS := 10

  /** A disk: block number to contents. */
  type Image = seq<Block>

  /** One bwrite(), the unit that a crash cannot split. */
  datatype Write = Write(bn: nat, data: Block)

  /** log.start and log.size: header block, then size - 1 log blocks. */
  datatype Layout = Layout(start: nat, size: nat)
  {
    predicate InLog(bn: nat) { start <= bn < start + size }
  }

  function Do(d: Image, w: Write): (r: Image)
    ensures |r| == |d|
  {
    if w.bn < |d| then d[w.bn := w.data] else d
  }

  function Apply(d: Image, ws: seq<Write>): (r: Image)
    ensures |r| == |d|
  {
    if ws == [] then d else Do(Apply(d, ws[..|ws| - 1]), ws[|ws| - 1])
  }

  lemma {:induction false} ApplyConcat(d: Image, a: seq<Write>, b: seq<Write>)
    ensures Apply(d, a + b) == Apply(Apply(d, a), b)
  {
    if b == [] {
      assert a + b == a;
    } else {
      assert (a + b)[..|a + b| - 1] == a + b[..|b| - 1];
      ApplyConcat(d, a, b[..|b| - 1]);
    }
  }

  lemma ApplyStep(d: Image, ws: seq<Write>, k: nat)
    requires k < |ws|
    ensures Apply(d, ws[..k + 1]) == Do(Apply(d, ws[..k]), ws[k])
  {
    assert ws[..k + 1][..k] == ws[..k];
  }

  predicate Misses(ws: seq<Write>, bn: nat)
  {
    forall i :: 0 <= i < |ws| ==> ws[i].bn != bn
  }

  lemma {:induction false} ApplyMiss(d: Image, ws: seq<Write>, bn: nat)
    requires bn < |d| && Misses(ws, bn)
    ensures Apply(d, ws)[bn] == d[bn]
  {
    if ws != [] {
      ApplyMiss(d, ws[..|ws| - 1], bn);
    }
  }

  /** The last write to a block decides its contents. */
  lemma {:induction false} ApplyHit(d: Image, ws: seq<Write>, i: nat)
    requires i < |ws| && ws[i].bn < |d|
    requires forall j :: i < j < |ws| ==> ws[j].bn != ws[i].bn
    ensures Apply(d, ws)[ws[i].bn] == ws[i].data
  {
    if i < |ws| - 1 {
      ApplyHit(d, ws[..|ws| - 1], i);
    }
  }

  // ---- the header block ----

  function HeaderN(hb: Block): Word { WordAt(hb, 0) }

  function HeaderBlocks(hb: Block): (bs: seq<Word>)
    requires HeaderN(hb) <= LOGSIZE
    ensures |bs| == HeaderN(hb)
  {
    seq(HeaderN(hb), i requires 0 <= i < HeaderN(hb) => WordAt(hb, i + 1))
  }

  /** The first k entries of bs stored in the header's block[] array. */
  function PutEntries(hb: Block, bs: seq<Word>, k: nat): Block
    requires k <= |bs| <= LOGSIZE
  {
    if k == 0 then hb else PutWord(PutEntries(hb, bs, k - 1), k, bs[k - 1])
  }

  /** The header that write_head() stores over hb; words past n keep their old value. */
  function WithHeader(hb: Block, bs: seq<Word>): Block
    requires |bs| <= LOGSIZE
  {
    PutEntries(PutWord(hb, 0, |bs|), bs, |bs|)
  }

  lemma {:induction false} EntriesRead(hb: Block, bs: seq<Word>, k: nat, i: nat)
    requires k <= |bs| <= LOGSIZE && i <= LOGSIZE
    ensures WordAt(PutEntries(hb, bs, k), i) == if 1 <= i <= k then bs[i - 1] else WordAt(hb, i)
  {
    if k > 0 {
      EntriesRead(hb, bs, k - 1, i);
      PutWordReads(PutEntries(hb, bs, k - 1), k, bs[k - 1], i);
    }
  }

  lemma HeaderRoundTrip(hb: Block, bs: seq<Word>)
    requires |bs| <= LOGSIZE
    ensures HeaderN(WithHeader(hb, bs)) == |bs|
    ensures HeaderBlocks(WithHeader(hb, bs)) == bs
  {
    EntriesRead(PutWord(hb, 0, |bs|), bs, |bs|, 0);
    PutWordReads(hb, 0, |bs|, 0);
    var out := HeaderBlocks(WithHeader(hb, bs));
    forall i | 0 <= i < |bs|
      ensures out[i] == bs[i]
    {
      EntriesRead(PutWord(hb, 0, |bs|), bs, |bs|, i + 1);
    }
  }

  // ---- what a disk means after a crash ----

  function IndexOf<T(==)>(s: seq<T>, x: T): (i: nat)
    requires x in s
    ensures i < |s| && s[i] == x
  {
    if s[0] == x then 0 else 1 + IndexOf(s[1..], x)
  }

  /** Block numbers that one transaction may log on a disk of the given length. */
  predicate Loggable(L: Layout, len: nat, bs: seq<Word>)
  {
    && L.start + L.size <= len
    && |bs| <= LOGSIZE && |bs| + 1 <= L.size
    && Distinct(bs)
    && forall i :: 0 <= i < |bs| ==> bs[i] < len && !L.InLog(bs[i])
  }

  /** The header on disk d describes a possible transaction. */
  predicate WellFormed(L: Layout, d: Image)
  {
    && 1 <= L.size && L.start + L.size <= |d|
    && HeaderN(d[L.start]) <= LOGSIZE
    && Loggable(L, |d|, HeaderBlocks(d[L.start]))
  }

  predicate Clean(L: Layout, d: Image)
  {
    1 <= L.size && L.start + L.size <= |d| && HeaderN(d[L.start]) == 0
  }

  /** Block bn as a reboot from disk d will see it: the logged copy if the header names bn. */
  function Meaning(L: Layout, d: Image, bn: nat): Block
    requires WellFormed(L, d) && bn < |d|
  {
    var bs := HeaderBlocks(d[L.start]);
    if bn in bs then d[L.start + 1 + IndexOf(bs, bn)] else d[bn]
  }

  /** Disks d and e mean the same outside the log region. */
  predicate SameMeaning(L: Layout, d: Image, e: Image)
  {
    && WellFormed(L, d) && WellFormed(L, e) && |d| == |e|
    && forall bn :: 0 <= bn < |d| && !L.InLog(bn) ==> Meaning(L, d, bn) == Meaning(L, e, bn)
  }

  // ---- the writes of commit() and recover_from_log() ----

  /** write_log(): copy each logged block from the cache into the log. */
  function LogCopies(L: Layout, view: Image, bs: seq<Word>): (ws: seq<Write>)
    requires forall i :: 0 <= i < |bs| ==> bs[i] < |view|
    ensures |ws| == |bs|
  {
    seq(|bs|, i requires 0 <= i < |bs| => Write(L.start + 1 + i, view[bs[i]]))
  }

  /** install_trans(): copy each log block to its home location. */
  function Installs(L: Layout, d: Image, bs: seq<Word>): (ws: seq<Write>)
    requires L.start + 1 + |bs| <= |d|
    ensures |ws| == |bs|
  {
    seq(|bs|, i requires 0 <= i < |bs| => Write(bs[i], d[L.start + 1 + i]))
  }

  /** A disk d, what clients see of it v, and the trace t of its writes, after writes ws. */
  predicate After(d0: Image, v0: Image, t0: seq<Write>, ws: seq<Write>, d: Image, v: Image, t: seq<Write>)
  {
    |d0| == |v0| && t == t0 + ws && d == Apply(d0, ws) && v == Apply(v0, ws)
  }

  lemma AfterStep(d0: Image, v0: Image, t0: seq<Write>, ws: seq<Write>, k: nat, d: Image, v: Image, t: seq<Write>)
    requires k < |ws| && ws[k].bn < |d0| && After(d0, v0, t0, ws[..k], d, v, t)
    ensures After(d0, v0, t0, ws[..k + 1], d[ws[k].bn := ws[k].data], v[ws[k].bn := ws[k].data], t + [ws[k]])
  {
    ApplyStep(d0, ws, k);
    ApplyStep(v0, ws, k);
    assert ws[..k + 1] == ws[..k] + [ws[k]];
  }

  /** When write_log() gets to slot k, the cached block is still as it was at the start. */
  lemma CopySource(L: Layout, d0: Image, v0: Image, t0: seq<Write>, bs: seq<Word>, k: nat,
                   d: Image, v: Image, t: seq<Write>)
    requires Loggable(L, |v0|, bs) && k < |bs| && After(d0, v0, t0, LogCopies(L, v0, bs)[..k], d, v, t)
    ensures |v| == |v0| && L.start + k + 1 < |v| && bs[k] != L.start + k + 1
    ensures LogCopies(L, v0, bs)[k] == Write(L.start + k + 1, v[bs[k]])
  {
    ApplyMiss(v0, LogCopies(L, v0, bs)[..k], bs[k]);
  }

  /** When install_trans() gets to slot k, the log block is still as it was at the start. */
  lemma InstallSource(L: Layout, d0: Image, v0: Image, t0: seq<Write>, bs: seq<Word>, k: nat,
                      d: Image, v: Image, t: seq<Write>)
    requires Loggable(L, |v0|, bs) && k < |bs| && After(d0, v0, t0, Installs(L, v0, bs)[..k], d, v, t)
    ensures |v| == |v0| && L.start + k + 1 < |v| && bs[k] != L.start + k + 1
    ensures Installs(L, v0, bs)[k] == Write(bs[k], v[L.start + k + 1])
  {
    ApplyMiss(v0, Installs(L, v0, bs)[..k], L.start + k + 1);
  }

  /** commit() with logged blocks bs, cache contents view, on disk d. */
  function CommitWrites(L: Layout, d: Image, view: Image, bs: seq<Word>): (ws: seq<Write>)
    requires Loggable(L, |d|, bs) && |view| == |d| && 1 <= L.size
    ensures bs != [] ==> |ws| == 2 * |bs| + 2
  {
    if bs == [] then []
    else
      var copies := LogCopies(L, view, bs);
      var header := WithHeader(d[L.start], bs);
      copies + [Write(L.start, header)]
      + Installs(L, Apply(d, copies), bs) + [Write(L.start, WithHeader(header, []))]
  }

  /** recover_from_log() on disk d. */
  function RecoveryWrites(L: Layout, d: Image): (ws: seq<Write>)
    requires WellFormed(L, d)
    ensures |ws| == HeaderN(d[L.start]) + 1
  {
    Installs(L, d, HeaderBlocks(d[L.start])) + [Write(L.start, WithHeader(d[L.start], []))]
  }

  /** Installing a prefix of the named blocks changes neither the header nor the meaning. */
  lemma PartialInstall(L: Layout, d: Image, bs: seq<Word>, k: nat)
    requires WellFormed(L, d) && bs == HeaderBlocks(d[L.start]) && k <= |bs|
    ensures SameMeaning(L, Apply(d, Installs(L, d, bs)[..k]), d)
    ensures Apply(d, Installs(L, d, bs)[..k])[L.start] == d[L.start]
  {
    hide WordAt, HeaderBlocks, WithHeader;
    var ws := Installs(L, d, bs)[..k];
    var e := Apply(d, ws);
    forall bn | 0 <= bn < |d| && bn !in bs
      ensures e[bn] == d[bn]
    {
      ApplyMiss(d, ws, bn);
    }
    MeaningAgrees(L, d, e);
  }

  /** Disks with the same header and log agree, whatever stands at home in the named blocks. */
  lemma MeaningAgrees(L: Layout, d: Image, e: Image)
    requires WellFormed(L, d) && |e| == |d| && e[L.start] == d[L.start]
    requires forall bn :: 0 <= bn < |d| && bn !in HeaderBlocks(d[L.start]) ==> e[bn] == d[bn]
    ensures SameMeaning(L, e, d)
  {
  }

  /** A fully installed log holds at home what the log held. */
  lemma FullInstall(L: Layout, d: Image, bs: seq<Word>, bn: nat)
    requires WellFormed(L, d) && bs == HeaderBlocks(d[L.start])
    requires bn < |d| && !L.InLog(bn)
    ensures Apply(d, Installs(L, d, bs))[bn] == Meaning(L, d, bn)
  {
    hide WordAt, HeaderBlocks, WithHeader;
    var ws := Installs(L, d, bs);
    if bn in bs {
      var i := IndexOf(bs, bn);
      ApplyHit(d, ws, i);
    } else {
      ApplyMiss(d, ws, bn);
    }
  }

  /** Erasing the header of a fully installed log keeps the meaning. */
  lemma EraseHeader(L: Layout, d: Image, e: Image)
    requires WellFormed(L, d) && |e| == |d|
    requires e[L.start] == d[L.start]
    requires forall bn :: 0 <= bn < |d| && !L.InLog(bn) ==> e[bn] == Meaning(L, d, bn)
    ensures var f := Do(e, Write(L.start, WithHeader(e[L.start], [])));
            SameMeaning(L, f, d) && Clean(L, f)
  {
  }

  /** However far recovery gets, the disk keeps its meaning; a finished one leaves a clean log. */
  lemma CrashDuringRecovery(L: Layout, d: Image, k: nat)
    requires WellFormed(L, d) && k <= |RecoveryWrites(L, d)|
    ensures SameMeaning(L, Apply(d, RecoveryWrites(L, d)[..k]), d)
    ensures k == |RecoveryWrites(L, d)| ==> Clean(L, Apply(d, RecoveryWrites(L, d)))
  {
    hide WordAt, HeaderBlocks, WithHeader;
    var bs := HeaderBlocks(d[L.start]);
    var ins := Installs(L, d, bs);
    var ws := RecoveryWrites(L, d);
    if k <= |bs| {
      assert ws[..k] == ins[..k];
      PartialInstall(L, d, bs, k);
    } else {
      assert ws[..k] == ws == ins + [Write(L.start, WithHeader(d[L.start], []))];
      assert ws[..|ws| - 1] == ins == ins[..|bs|];
      PartialInstall(L, d, bs, |bs|);
      var e := Apply(d, ins);
      forall bn | 0 <= bn < |d| && !L.InLog(bn)
        ensures e[bn] == Meaning(L, d, bn)
      {
        FullInstall(L, d, bs, bn);
      }
      EraseHeader(L, d, e);
    }
  }

  /** Reboot: ks lists how many block writes each interrupted recovery got through;
      the last recovery runs to the end. */
  function Reboot(L: Layout, d: Image, ks: seq<nat>): Image
    requires WellFormed(L, d)
    decreases |ks|
  {
    var ws := RecoveryWrites(L, d);
    if ks == [] then Apply(d, ws)
    else
      var k := if ks[0] < |ws| then ks[0] else |ws|;
      CrashDuringRecovery(L, d, k);
      Reboot(L, Apply(d, ws[..k]), ks[1..])
  }

  /** Installing and then erasing the header is what RecoveryWrites lists. */
  lemma RecoverySteps(L: Layout, d: Image)
    requires WellFormed(L, d)
    ensures var ins := Installs(L, d, HeaderBlocks(d[L.start]));
            var e := Apply(d, ins);
            var w := Write(L.start, WithHeader(e[L.start], []));
            && RecoveryWrites(L, d) == ins + [w]
            && Apply(d, RecoveryWrites(L, d)) == e[L.start := w.data]
            && Clean(L, Apply(d, RecoveryWrites(L, d)))
  {
    hide WordAt, HeaderBlocks, WithHeader;
    var bs := HeaderBlocks(d[L.start]);
    var ins := Installs(L, d, bs);
    PartialInstall(L, d, bs, |bs|);
    assert ins[..|bs|] == ins;
    var ws := RecoveryWrites(L, d);
    assert ws[..|ws| - 1] == ins;
    assert ws[..|ws|] == ws;
    CrashDuringRecovery(L, d, |ws|);
  }

  /** Home blocks of r hold what disk d meant, and r's log is empty. */
  predicate Settled(L: Layout, d: Image, r: Image)
    requires WellFormed(L, d)
  {
    && |r| == |d| && Clean(L, r)
    && forall bn :: 0 <= bn < |d| && !L.InLog(bn) ==> r[bn] == Meaning(L, d, bn)
  }

  /** Recovery, interrupted any number of times and then completed, puts on every home block
      exactly what the disk meant, and leaves the log empty. */
  lemma {:induction false} RebootSettles(L: Layout, d: Image, ks: seq<nat>)
    requires WellFormed(L, d)
    ensures Settled(L, d, Reboot(L, d, ks))
    decreases |ks|
  {
    var ws := RecoveryWrites(L, d);
    if ks == [] {
      assert ws[..|ws|] == ws;
      CrashDuringRecovery(L, d, |ws|);
    } else {
      var k := if ks[0] < |ws| then ks[0] else |ws|;
      CrashDuringRecovery(L, d, k);
      RebootSettles(L, Apply(d, ws[..k]), ks[1..]);
    }
  }

  // ---- atomicity of commit() ----

  /** Disk d with the blocks bs taken from view. */
  function Overlay(d: Image, view: Image, bs: seq<Word>): (r: Image)
    requires |view| == |d|
    ensures |r| == |d|
  {
    seq(|d|, bn requires 0 <= bn < |d| => if bn in bs then view[bn] else d[bn])
  }

  predicate CanCommit(L: Layout, d: Image, view: Image, bs: seq<Word>)
  {
    Clean(L, d) && |view| == |d| && Loggable(L, |d|, bs)
  }

  /** Before the header is written, the transaction does not exist. */
  lemma CrashBeforeHeader(L: Layout, d: Image, view: Image, bs: seq<Word>, k: nat)
    requires CanCommit(L, d, view, bs) && k <= |bs|
    ensures SameMeaning(L, Apply(d, LogCopies(L, view, bs)[..k]), d)
    ensures Apply(d, LogCopies(L, view, bs)[..k])[L.start] == d[L.start]
  {
    var ws := LogCopies(L, view, bs)[..k];
    var e := Apply(d, ws);
    forall bn | 0 <= bn < |d| && (bn == L.start || !L.InLog(bn))
      ensures e[bn] == d[bn]
    {
      ApplyMiss(d, ws, bn);
    }
  }

  /** The disk just after the header write. */
  function Committed(L: Layout, d: Image, view: Image, bs: seq<Word>): (e: Image)
    requires CanCommit(L, d, view, bs)
    ensures |e| == |d|
  {
    Do(Apply(d, LogCopies(L, view, bs)), Write(L.start, WithHeader(d[L.start], bs)))
  }

  lemma CommittedSlots(L: Layout, d: Image, view: Image, bs: seq<Word>)
    requires CanCommit(L, d, view, bs)
    ensures var e := Committed(L, d, view, bs);
            && WellFormed(L, e) && HeaderBlocks(e[L.start]) == bs
            && forall i :: 0 <= i < |bs| ==> e[L.start + 1 + i] == view[bs[i]]
  {
    hide WordAt, HeaderBlocks, WithHeader;
    HeaderRoundTrip(d[L.start], bs);
    forall i | 0 <= i < |bs|
      ensures Committed(L, d, view, bs)[L.start + 1 + i] == view[bs[i]]
    {
      ApplyHit(d, LogCopies(L, view, bs), i);
    }
  }

  /** From the header write on, the disk means the new state. */
  lemma HeaderCommits(L: Layout, d: Image, view: Image, bs: seq<Word>)
    requires CanCommit(L, d, view, bs)
    ensures SameMeaning(L, Committed(L, d, view, bs), Overlay(d, view, bs))
  {
    hide WordAt, HeaderBlocks, WithHeader;
    var e := Committed(L, d, view, bs);
    CommittedSlots(L, d, view, bs);
    var post := Overlay(d, view, bs);
    assert post[L.start] == d[L.start];
    forall bn | 0 <= bn < |d| && !L.InLog(bn)
      ensures Meaning(L, e, bn) == Meaning(L, post, bn)
    {
      if bn !in bs {
        ApplyMiss(d, LogCopies(L, view, bs), bn);
      }
    }
  }

  /** commit() is write_log(), the header, and then what recovery would do. */
  lemma CommitSplits(L: Layout, d: Image, view: Image, bs: seq<Word>)
    requires CanCommit(L, d, view, bs) && bs != []
    ensures var e := Committed(L, d, view, bs);
            && WellFormed(L, e)
            && CommitWrites(L, d, view, bs) ==
               LogCopies(L, view, bs) + [Write(L.start, WithHeader(d[L.start], bs))] + RecoveryWrites(L, e)
  {
    hide WordAt, HeaderBlocks, WithHeader;
    var e := Committed(L, d, view, bs);
    CommittedSlots(L, d, view, bs);
    var c := Apply(d, LogCopies(L, view, bs));
    assert Installs(L, e, bs) == Installs(L, c, bs);
  }

  /** The steps of commit() on disk d0 under view v0, put together. */
  lemma CommitSteps(L: Layout, d0: Image, v0: Image, t0: seq<Write>, bs: seq<Word>)
    requires CanCommit(L, d0, v0, bs) && bs != [] && v0[L.start] == d0[L.start]
    ensures var copies := LogCopies(L, v0, bs);
            var d1, v1 := Apply(d0, copies), Apply(v0, copies);
            var hb := WithHeader(v1[L.start], bs);
            var d2, v2 := d1[L.start := hb], v1[L.start := hb];
            var ins := Installs(L, v2, bs);
            var d3, v3 := Apply(d2, ins), Apply(v2, ins);
            var hb2 := WithHeader(v3[L.start], []);
            && t0 + CommitWrites(L, d0, v0, bs) == t0 + copies + [Write(L.start, hb)] + ins + [Write(L.start, hb2)]
            && d3[L.start := hb2] == Apply(d0, CommitWrites(L, d0, v0, bs))
  {
    hide WordAt, HeaderBlocks, WithHeader;
    var copies := LogCopies(L, v0, bs);
    ApplyMiss(v0, copies, L.start);
    var d1, v1 := Apply(d0, copies), Apply(v0, copies);
    var hb := Write(L.start, WithHeader(v1[L.start], bs));
    var d2, v2 := d1[L.start := hb.data], v1[L.start := hb.data];
    var ins := Installs(L, v2, bs);
    assert ins == Installs(L, d1, bs) by {
      forall i | 0 <= i < |bs|
        ensures ins[i] == Installs(L, d1, bs)[i]
      {
        ApplyHit(v0, copies, i);
        ApplyHit(d0, copies, i);
      }
    }
    ApplyMiss(v2, ins, L.start);
    var hb2 := Write(L.start, WithHeader(hb.data, []));
    var front := copies + [hb];
    assert front[..|front| - 1] == copies;
    assert Apply(d0, front) == d2;
    ApplyConcat(d0, front, ins);
    var all := front + ins + [hb2];
    assert all[..|all| - 1] == front + ins;
  }

  /** After k of commit()'s writes the disk means the old state if the header is not out yet,
      and the new state from then on; a finished commit leaves the log empty. */
  lemma CommitPrefixMeaning(L: Layout, d: Image, view: Image, bs: seq<Word>, k: nat)
    requires CanCommit(L, d, view, bs) && k <= |CommitWrites(L, d, view, bs)|
    ensures SameMeaning(L, Apply(d, CommitWrites(L, d, view, bs)[..k]),
                        if k <= |bs| then d else Overlay(d, view, bs))
    ensures k == |CommitWrites(L, d, view, bs)| ==> Clean(L, Apply(d, CommitWrites(L, d, view, bs)))
  {
    hide WordAt, HeaderBlocks, WithHeader;
    var ws := CommitWrites(L, d, view, bs);
    if bs == [] {
      assert ws[..k] == [] == ws;
    } else if k <= |bs| {
      assert ws[..k] == LogCopies(L, view, bs)[..k];
      CrashBeforeHeader(L, d, view, bs, k);
    } else {
      CrashAfterHeader(L, d, view, bs, k - |bs| - 1);
      assert ws[..|ws|] == ws;
    }
  }

  lemma CrashAfterHeader(L: Layout, d: Image, view: Image, bs: seq<Word>, j: nat)
    requires CanCommit(L, d, view, bs) && bs != [] && j <= |bs| + 1
    ensures var e := Apply(d, CommitWrites(L, d, view, bs)[..|bs| + 1 + j]);
            && SameMeaning(L, e, Overlay(d, view, bs))
            && (j == |bs| + 1 ==> Clean(L, e))
  {
    hide WordAt, HeaderBlocks, WithHeader;
    CommitSplits(L, d, view, bs);
    var e := Committed(L, d, view, bs);
    CommittedSlots(L, d, view, bs);
    var front := LogCopies(L, view, bs) + [Write(L.start, WithHeader(d[L.start], bs))];
    assert front[..|front| - 1] == LogCopies(L, view, bs);
    assert Apply(d, front) == e;
    var recovery := RecoveryWrites(L, e);
    assert CommitWrites(L, d, view, bs)[..|bs| + 1 + j] == front + recovery[..j];
    ApplyConcat(d, front, recovery[..j]);
    CrashDuringRecovery(L, e, j);
    assert recovery[..|recovery|] == recovery;
    HeaderCommits(L, d, view, bs);
  }

  /** Crash atomicity: crash after any k of commit()'s block writes, crash again during recovery
      as often as ks says, and finally recover: every home block is as before the transaction if
      the header write had not happened, and as the transaction wrote it otherwise. */
  lemma CrashAtomicity(L: Layout, d: Image, view: Image, bs: seq<Word>, k: nat, ks: seq<nat>)
    requires CanCommit(L, d, view, bs) && k <= |CommitWrites(L, d, view, bs)|
    ensures var e := Apply(d, CommitWrites(L, d, view, bs)[..k]);
            && WellFormed(L, e)
            && var r := Reboot(L, e, ks);
               && |r| == |d| && Clean(L, r)
               && forall bn :: 0 <= bn < |d| && !L.InLog(bn) ==>
                    r[bn] == if k > |bs| && bn in bs then view[bn] else d[bn]
  {
    hide WordAt, HeaderBlocks, WithHeader;
    CommitPrefixMeaning(L, d, view, bs, k);
    var e := Apply(d, CommitWrites(L, d, view, bs)[..k]);
    RebootSettles(L, e, ks);
    var goal := if k <= |bs| then d else Overlay(d, view, bs);
    forall bn | 0 <= bn < |d| && !L.InLog(bn)
      ensures Meaning(L, goal, bn) == if k > |bs| && bn in bs then view[bn] else d[bn]
    {
      assert goal[L.start] == d[L.start];
    }
  }

  // ---- whole lives of a disk ----

  /** One transaction of a disk's life: commit() got through k block writes. If that was not all
      of them the machine crashed there, and recovery ran, interrupted as ks says. */
  datatype Episode = Episode(bs: seq<Word>, view: Image, k: nat, ks: seq<nat>)

  predicate Possible(L: Layout, d: Image, e: Episode)
  {
    CanCommit(L, d, e.view, e.bs) && e.k <= |CommitWrites(L, d, e.view, e.bs)|
  }

  function Live(L: Layout, d: Image, e: Episode): (r: Image)
    requires Possible(L, d, e)
    ensures Clean(L, r) && |r| == |d|
  {
    var ws := CommitWrites(L, d, e.view, e.bs);
    CommitPrefixMeaning(L, d, e.view, e.bs, e.k);
    if e.k == |ws| then
      assert ws[..e.k] == ws;
      Apply(d, ws)
    else
      RebootSettles(L, Apply(d, ws[..e.k]), e.ks);
      Reboot(L, Apply(d, ws[..e.k]), e.ks)
  }

  predicate PossibleLife(L: Layout, d: Image, es: seq<Episode>)
    decreases |es|
  {
    es == [] || (Possible(L, d, es[0]) && PossibleLife(L, Live(L, d, es[0]), es[1..]))
  }

  function LiveAll(L: Layout, d: Image, es: seq<Episode>): Image
    requires PossibleLife(L, d, es)
    decreases |es|
  {
    if es == [] then d else LiveAll(L, Live(L, d, es[0]), es[1..])
  }

  /** The blocks a disk ought to hold: the transactions whose header got out, in order. */
  function Ideal(d: Image, es: seq<Episode>): (r: Image)
    requires forall i :: 0 <= i < |es| ==> |es[i].view| == |d|
    ensures |r| == |d|
    decreases |es|
  {
    if es == [] then d
    else Ideal(if es[0].k > |es[0].bs| then Overlay(d, es[0].view, es[0].bs) else d, es[1..])
  }

  predicate SameHome(L: Layout, d: Image, e: Image)
  {
    |d| == |e| && forall bn :: 0 <= bn < |d| && !L.InLog(bn) ==> d[bn] == e[bn]
  }

  lemma CleanSameHome(L: Layout, d: Image, e: Image)
    requires SameMeaning(L, d, e) && Clean(L, d) && Clean(L, e)
    ensures SameHome(L, d, e)
  {
  }

  /** A finished commit() leaves an empty log and the new state at home. */
  lemma CommitFinishes(L: Layout, d: Image, view: Image, bs: seq<Word>)
    requires CanCommit(L, d, view, bs)
    ensures var e := Apply(d, CommitWrites(L, d, view, bs));
            Clean(L, e) && SameHome(L, e, Overlay(d, view, bs))
  {
    hide WordAt, HeaderBlocks, WithHeader;
    var ws := CommitWrites(L, d, view, bs);
    assert ws[..|ws|] == ws;
    CommitPrefixMeaning(L, d, view, bs, |ws|);
    var post := Overlay(d, view, bs);
    assert post[L.start] == d[L.start];
    if bs == [] {
      assert post == d;
    }
    CleanSameHome(L, Apply(d, ws), post);
  }

  lemma LiveIsAtomic(L: Layout, d: Image, e: Episode)
    requires Possible(L, d, e)
    ensures SameHome(L, Live(L, d, e), if e.k > |e.bs| then Overlay(d, e.view, e.bs) else d)
  {
    hide WordAt, HeaderBlocks, WithHeader;
    var ws := CommitWrites(L, d, e.view, e.bs);
    if e.k == |ws| {
      CommitFinishes(L, d, e.view, e.bs);
      assert e.bs == [] ==> Overlay(d, e.view, e.bs) == d;
    } else {
      CrashAtomicity(L, d, e.view, e.bs, e.k, e.ks);
    }
  }

  lemma {:induction false} IdealRespectsHome(L: Layout, d: Image, e: Image, es: seq<Episode>)
    requires SameHome(L, d, e)
    requires forall i :: 0 <= i < |es| ==> |es[i].view| == |d|
    ensures SameHome(L, Ideal(d, es), Ideal(e, es))
    decreases |es|
  {
    if es != [] {
      var f := es[0];
      IdealRespectsHome(L, if f.k > |f.bs| then Overlay(d, f.view, f.bs) else d,
                        if f.k > |f.bs| then Overlay(e, f.view, f.bs) else e, es[1..]);
    }
  }

  lemma {:induction false} ViewsFit(L: Layout, d: Image, es: seq<Episode>)
    requires PossibleLife(L, d, es)
    ensures forall i :: 0 <= i < |es| ==> |es[i].view| == |d|
    decreases |es|
  {
    if es != [] {
      ViewsFit(L, Live(L, d, es[0]), es[1..]);
      assert forall i :: 1 <= i < |es| ==> es[i] == es[1..][i - 1];
    }
  }

  /** Over any life, with crashes anywhere in it, the home blocks are those of the transactions
      whose header reached the disk: none of them lost, none of the others even partly applied. */
  lemma {:induction false} LifeIsAtomic(L: Layout, d: Image, es: seq<Episode>)
    requires PossibleLife(L, d, es)
    ensures forall i :: 0 <= i < |es| ==> |es[i].view| == |d|
    ensures SameHome(L, LiveAll(L, d, es), Ideal(d, es))
    decreases |es|
  {
    ViewsFit(L, d, es);
    if es != [] {
      var d1 := Live(L, d, es[0]);
      LiveIsAtomic(L, d, es[0]);
      LifeIsAtomic(L, d1, es[1..]);
      var goal := if es[0].k > |es[0].bs| then Overlay(d, es[0].view, es[0].bs) else d;
      IdealRespectsHome(L, d1, goal, es[1..]);
    }
  }
}

/**
 The on-disk redo log of kernel/log.c: header format, the block writes of commit
 and of recovery in the order they reach the disk, and what a crash between any
 two of them leaves behind.
 */
module DiskLog {
  import opened Params

  const WORDS := 256    // BSIZE / sizeof(int)

  /** A disk block, seen as the int array that struct logheader overlays. */
  type Block = seq<int>

  type Disk = seq<Block>

  /** One atomic block write. */
  datatype Write = Write(blockno: nat, data: Block)

  /** log->start and log->size: the header block, then size - 1 log blocks. */
  datatype Geometry = Geometry(start: nat, size: nat) {
    predicate InLog(b: int) { start <= b < start + size }
  }

  // ----- header block

  /** The block numbers a header block lists (read_head). */
  function HeaderOf(blk: Block): seq<int>
    requires |blk| == WORDS
  {
    if 0 <= blk[0] <= LOGSIZE then blk[1..1 + blk[0]] else []
  }

  /** Word 0 says how many, and the words behind it which; a number out of range is no header. */
  lemma HeaderWords(blk: Block)
    requires |blk| == WORDS
    ensures var h := HeaderOf(blk);
            if 0 <= blk[0] <= LOGSIZE then |h| == blk[0] && forall k :: 0 <= k < |h| ==> h[k] == blk[1 + k] else h == []
  {
  }

  /** hb->n and hb->block[0..n] are overwritten, the rest of the block is kept (write_head). */
  function PutHeader(blk: Block, lh: seq<int>): (r: Block)
    requires |blk| == WORDS && |lh| <= LOGSIZE
    ensures |r| == WORDS && HeaderOf(r) == lh
    ensures r[0] == |lh| && r[1 + |lh|..] == blk[1 + |lh|..] && forall k :: 0 <= k < |lh| ==> r[1 + k] == lh[k]
  {
    var r: seq<int> := [|lh|] + lh + blk[1 + |lh|..];
    assert r[1..1 + |lh|] == lh;
    r
  }

  // ----- well-formedness

  predicate Distinct(s: seq<int>) {
    forall i, j :: 0 <= i < j < |s| ==> s[i] != s[j]
  }

  /** A block list that may be logged: fits the log, names distinct home blocks. */
  predicate TxOk(g: Geometry, diskSize: nat, lh: seq<int>) {
    && |lh| <= LOGSIZE && |lh| <= g.size - 1
    && Distinct(lh)
    && forall i :: 0 <= i < |lh| ==> 0 <= lh[i] < diskSize && !g.InLog(lh[i])
  }

  predicate WellFormed(g: Geometry, d: Disk) {
    && 1 <= g.size && g.start + g.size <= |d|
    && |d[g.start]| == WORDS && 0 <= d[g.start][0] <= LOGSIZE
    && TxOk(g, |d|, HeaderOf(d[g.start]))
  }

  // ----- what the disk means

  ghost function IndexOf(s: seq<int>, x: int): (i: nat)
    requires x in s
    ensures i < |s| && s[i] == x
  {
    var i :| 0 <= i < |s| && s[i] == x; i
  }

  /** Block b's content when the header lists h: its log copy if listed. */
  ghost function Lookup(g: Geometry, h: seq<int>, d: Disk, b: nat): Block
    requires g.start + g.size <= |d| && |h| <= g.size - 1 && b < |d|
  {
    if b in h then d[g.start + 1 + IndexOf(h, b)] else d[b]
  }

  /** The committed content of home block b. */
  ghost function Logical(g: Geometry, d: Disk, b: nat): Block
    requires WellFormed(g, d) && b < |d|
  {
    Lookup(g, HeaderOf(d[g.start]), d, b)
  }

  /** Every home block's committed content is the one in home. */
  ghost predicate Means(g: Geometry, d: Disk, home: Disk) {
    && WellFormed(g, d) && |home| == |d|
    && forall b :: 0 <= b < |d| && !g.InLog(b) ==> Logical(g, d, b) == home[b]
  }

  /** The home blocks themselves hold home, and the log is empty. */
  predicate Holds(g: Geometry, d: Disk, home: Disk) {
    && WellFormed(g, d) && |home| == |d|
    && HeaderOf(d[g.start]) == []
    && forall b :: 0 <= b < |d| && !g.InLog(b) ==> d[b] == home[b]
  }

  // ----- block writes

  predicate InRange(d: Disk, ws: seq<Write>) {
    forall i :: 0 <= i < |ws| ==> ws[i].blockno < |d|
  }

  /** The disk after the writes ws, in order. */
  function Apply(d: Disk, ws: seq<Write>): (r: Disk)
    requires InRange(d, ws)
    ensures |r| == |d|
  {
    if ws == [] then d
    else
      var last := ws[|ws| - 1];
      Apply(d, ws[..|ws| - 1])[last.blockno := last.data]
  }

  lemma {:induction false} ApplyConcat(d: Disk, ws: seq<Write>, vs: seq<Write>)
    requires InRange(d, ws) && InRange(d, vs)
    ensures InRange(d, ws + vs)
    ensures Apply(d, ws + vs) == Apply(Apply(d, ws), vs)
  {
    if vs == [] {
      assert ws + vs == ws;
    } else {
      var k := |vs| - 1;
      assert (ws + vs)[..|ws + vs| - 1] == ws + vs[..k];
      ApplyConcat(d, ws, vs[..k]);
    }
  }

  /** write_log: home block contents of view go to consecutive log blocks. */
  function LogWrites(g: Geometry, lh: seq<int>, view: Disk): (ws: seq<Write>)
    requires TxOk(g, |view|, lh)
    ensures |ws| == |lh|
    ensures forall i :: 0 <= i < |lh| ==> ws[i] == Write(g.start + 1 + i, view[lh[i]])
  {
    seq(|lh|, i requires 0 <= i < |lh| => Write(g.start + 1 + i, view[lh[i]]))
  }

  /** install_trans: log blocks go to the home blocks the header lists. */
  function InstallWrites(g: Geometry, lh: seq<int>, d: Disk): (ws: seq<Write>)
    requires TxOk(g, |d|, lh) && g.start + g.size <= |d|
    ensures |ws| == |lh|
    ensures forall i :: 0 <= i < |lh| ==> ws[i] == Write(lh[i], d[g.start + 1 + i])
  {
    seq(|lh|, i requires 0 <= i < |lh| => Write(lh[i], d[g.start + 1 + i]))
  }

  /** Installing from the log right after write_log: the same blocks, taken from view. */
  function HomeWrites(g: Geometry, lh: seq<int>, view: Disk): (ws: seq<Write>)
    requires TxOk(g, |view|, lh)
    ensures |ws| == |lh|
    ensures forall i :: 0 <= i < |lh| ==> ws[i] == Write(lh[i], view[lh[i]])
  {
    seq(|lh|, i requires 0 <= i < |lh| => Write(lh[i], view[lh[i]]))
  }

  /** The writes up to and including the one that commits. */
  function CommitPoint(g: Geometry, lh: seq<int>, view: Disk, hdr: Block): (ws: seq<Write>)
    requires TxOk(g, |view|, lh) && |hdr| == WORDS
    ensures |ws| == |lh| + 1
  {
    LogWrites(g, lh, view) + [Write(g.start, PutHeader(hdr, lh))]
  }

  /** All block writes of commit, in order; hdr is the old header block. */
  function CommitWrites(g: Geometry, lh: seq<int>, view: Disk, hdr: Block): seq<Write>
    requires TxOk(g, |view|, lh) && |hdr| == WORDS
  {
    if lh == [] then []
    else
      CommitPoint(g, lh, view, hdr)
      + (HomeWrites(g, lh, view) + [Write(g.start, PutHeader(PutHeader(hdr, lh), []))])
  }

  /** All block writes of recover_from_log on disk d, in order. */
  function RecoverWrites(g: Geometry, d: Disk): seq<Write>
    requires WellFormed(g, d)
  {
    InstallWrites(g, HeaderOf(d[g.start]), d) + [Write(g.start, PutHeader(d[g.start], []))]
  }

  // ----- crash points

  /** The disk when power fails after the first k writes (all of them if there are fewer). */
  function CrashAfter(d: Disk, ws: seq<Write>, k: nat): (r: Disk)
    requires InRange(d, ws)
    ensures |r| == |d|
  {
    if k < |ws| then Apply(d, ws[..k]) else Apply(d, ws)
  }

  /** The disk after one aborted recovery attempt per element of ks, cut off at that write. */
  function AfterCrashes(g: Geometry, d: Disk, ks: seq<nat>): (r: Disk)
    requires WellFormed(g, d)
    ensures |r| == |d|
    ensures WellFormed(g, r)
    decreases |ks|
  {
    if ks == [] then d
    else
      RecoverWritesInRange(g, d);
      RecoveryStep(g, d, ks[0]);
      AfterCrashes(g, CrashAfter(d, RecoverWrites(g, d), ks[0]), ks[1..])
  }

  /** The disk after recover_from_log ran to its end. */
  function Recovered(g: Geometry, d: Disk): (r: Disk)
    requires WellFormed(g, d)
    ensures |r| == |d|
  {
    RecoverWritesInRange(g, d);
    Apply(d, RecoverWrites(g, d))
  }

  lemma RecoverWritesInRange(g: Geometry, d: Disk)
    requires WellFormed(g, d)
    ensures InRange(d, RecoverWrites(g, d))
  {
  }

  lemma CommitWritesInRange(g: Geometry, lh: seq<int>, view: Disk, hdr: Block)
    requires TxOk(g, |view|, lh) && g.start + g.size <= |view| && 1 <= g.size && |hdr| == WORDS
    ensures InRange(view, CommitWrites(g, lh, view, hdr))
  {
  }

  // ----- effect of write prefixes

  /** k log-block writes change exactly log blocks start+1 .. start+k. */
  lemma {:induction false} LogWritesEffect(g: Geometry, lh: seq<int>, view: Disk, d: Disk, k: nat)
    requires TxOk(g, |view|, lh) && |d| == |view| && g.start + g.size <= |d|
    requires k <= |lh|
    ensures InRange(d, LogWrites(g, lh, view)[..k])
    ensures forall b :: 0 <= b < |d| ==>
              Apply(d, LogWrites(g, lh, view)[..k])[b]
              == if g.start < b <= g.start + k then view[lh[b - g.start - 1]] else d[b]
  {
    var ws := LogWrites(g, lh, view);
    if k > 0 {
      LogWritesEffect(g, lh, view, d, k - 1);
      assert ws[..k][..k - 1] == ws[..k - 1];
    }
  }

  /** k writes to home blocks change exactly the first k listed blocks. */
  lemma {:induction false} HomeWritesEffect(lh: seq<int>, ws: seq<Write>, d: Disk, k: nat)
    requires Distinct(lh) && |ws| == |lh| && k <= |lh|
    requires forall i :: 0 <= i < |lh| ==> 0 <= lh[i] < |d| && ws[i].blockno == lh[i]
    ensures InRange(d, ws[..k])
    ensures forall b {:trigger Apply(d, ws[..k])[b]} :: 0 <= b < |d| && b !in lh[..k] ==> Apply(d, ws[..k])[b] == d[b]
    ensures forall i :: 0 <= i < k ==> Apply(d, ws[..k])[lh[i]] == ws[i].data
  {
    if k > 0 {
      HomeWritesEffect(lh, ws, d, k - 1);
      assert ws[..k][..k - 1] == ws[..k - 1];
      assert lh[..k] == lh[..k - 1] + [lh[k - 1]];
    }
  }

  /** e is d with the first k blocks listed in h overwritten by their log copies. */
  predicate Installed(g: Geometry, h: seq<int>, d: Disk, e: Disk, k: nat)
    requires TxOk(g, |d|, h) && g.start + g.size <= |d| && k <= |h|
  {
    && |e| == |d|
    && (forall b {:trigger e[b]} :: 0 <= b < |d| && b !in h[..k] ==> e[b] == d[b])
    && (forall i :: 0 <= i < k ==> e[h[i]] == d[g.start + 1 + i])
  }

  lemma PartialInstall(g: Geometry, h: seq<int>, d: Disk, k: nat)
    requires TxOk(g, |d|, h) && g.start + g.size <= |d| && k <= |h|
    ensures InRange(d, InstallWrites(g, h, d)[..k])
    ensures Installed(g, h, d, Apply(d, InstallWrites(g, h, d)[..k]), k)
  {
    HomeWritesEffect(h, InstallWrites(g, h, d), d, k);
  }

  lemma InstalledKeepsLog(g: Geometry, h: seq<int>, d: Disk, e: Disk, k: nat, b: nat)
    requires TxOk(g, |d|, h) && g.start + g.size <= |d| && k <= |h|
    requires Installed(g, h, d, e, k) && g.InLog(b)
    ensures e[b] == d[b]
  {
    assert b !in h[..k];
  }

  /** Overwriting listed home blocks with their log copies changes no looked-up content. */
  lemma InstalledLookup(g: Geometry, h: seq<int>, d: Disk, e: Disk, k: nat, b: nat)
    requires TxOk(g, |d|, h) && g.start + g.size <= |d| && k <= |h|
    requires Installed(g, h, d, e, k)
    requires b < |d| && !g.InLog(b)
    ensures Lookup(g, h, e, b) == Lookup(g, h, d, b)
    ensures k == |h| ==> e[b] == Lookup(g, h, d, b)
  {
    if b in h {
      InstalledKeepsLog(g, h, d, e, k, g.start + 1 + IndexOf(h, b));
      assert k == |h| ==> e[h[IndexOf(h, b)]] == d[g.start + 1 + IndexOf(h, b)];
    } else {
      assert b !in h[..k];
    }
  }

  /** While a committed header stands, a partial install leaves every committed content as it is. */
  lemma InstalledMeans(g: Geometry, d: Disk, e: Disk, k: nat)
    requires WellFormed(g, d) && k <= |HeaderOf(d[g.start])| && Installed(g, HeaderOf(d[g.start]), d, e, k)
    ensures WellFormed(g, e) && e[g.start] == d[g.start]
    ensures forall b :: 0 <= b < |d| && !g.InLog(b) ==> Logical(g, e, b) == Logical(g, d, b)
    ensures k == |HeaderOf(d[g.start])| ==> forall b :: 0 <= b < |d| && !g.InLog(b) ==> e[b] == Logical(g, d, b)
  {
    hide Lookup;
    var h := HeaderOf(d[g.start]);
    InstalledKeepsLog(g, h, d, e, k, g.start);
    forall b | 0 <= b < |d| && !g.InLog(b)
      ensures Lookup(g, h, e, b) == Lookup(g, h, d, b)
      ensures k == |h| ==> e[b] == Lookup(g, h, d, b)
    {
      InstalledLookup(g, h, d, e, k, b);
    }
  }

  /** One recovery attempt, cut off anywhere: the meaning stands; run to its end, home blocks hold it. */
  lemma RecoveryStep(g: Geometry, d: Disk, k: nat)
    requires WellFormed(g, d)
    ensures InRange(d, RecoverWrites(g, d))
    ensures WellFormed(g, CrashAfter(d, RecoverWrites(g, d), k))
    ensures forall b :: 0 <= b < |d| && !g.InLog(b) ==>
              Logical(g, CrashAfter(d, RecoverWrites(g, d), k), b) == Logical(g, d, b)
    ensures k > |HeaderOf(d[g.start])| ==>
              var e := CrashAfter(d, RecoverWrites(g, d), k);
              HeaderOf(e[g.start]) == [] && forall b :: 0 <= b < |d| && !g.InLog(b) ==> e[b] == Logical(g, d, b)
  {
    RecoverWritesInRange(g, d);
    var h := HeaderOf(d[g.start]);
    var inst := InstallWrites(g, h, d);
    var ws := RecoverWrites(g, d);
    var j := if k <= |h| then k else |h|;
    PartialInstall(g, h, d, j);
    assert ws[..j] == inst[..j];
    var e := Apply(d, inst[..j]);
    InstalledMeans(g, d, e, j);
    assert k > |h| ==> ws[..|ws| - 1] == inst[..j];
  }

  // ----- main theorems

  /** The situation commit starts from: an empty log, and view differing only on listed blocks. */
  predicate CommitReady(g: Geometry, lh: seq<int>, d: Disk, view: Disk) {
    && Holds(g, d, d) && |view| == |d|
    && lh != [] && TxOk(g, |d|, lh)
    && forall b :: 0 <= b < |d| && !g.InLog(b) && b !in lh ==> view[b] == d[b]
  }

  /** e is d with k log blocks written and, if committed, the header listing lh. */
  predicate Logged(g: Geometry, lh: seq<int>, d: Disk, view: Disk, e: Disk, k: nat, committed: bool)
    requires CommitReady(g, lh, d, view) && k <= |lh|
  {
    && |e| == |d|
    && e[g.start] == (if committed then PutHeader(d[g.start], lh) else d[g.start])
    && (forall i :: 0 <= i < k ==> e[g.start + 1 + i] == view[lh[i]])
    && (forall b :: 0 <= b < |d| && !g.InLog(b) ==> e[b] == d[b])
  }

  lemma LoggedMeans(g: Geometry, lh: seq<int>, d: Disk, view: Disk, e: Disk, k: nat, committed: bool)
    requires CommitReady(g, lh, d, view) && k <= |lh| && (committed ==> k == |lh|)
    requires Logged(g, lh, d, view, e, k, committed)
    ensures Means(g, e, if committed then view else d)
  {
    assert g.InLog(g.start);
    forall b | 0 <= b < |d| && !g.InLog(b)
      ensures Logical(g, e, b) == if committed then view[b] else d[b]
    {
      if committed && b in lh {
        assert e[g.start + 1 + IndexOf(lh, b)] == view[b];
      }
    }
  }

  /** Disk after k log-block writes. */
  lemma CommitPrefix(g: Geometry, lh: seq<int>, d: Disk, view: Disk, k: nat)
    requires CommitReady(g, lh, d, view) && k <= |lh|
    ensures InRange(d, LogWrites(g, lh, view)[..k])
    ensures Logged(g, lh, d, view, Apply(d, LogWrites(g, lh, view)[..k]), k, false)
  {
    LogWritesEffect(g, lh, view, d, k);
  }

  lemma CommitPointState(g: Geometry, lh: seq<int>, d: Disk, view: Disk)
    requires CommitReady(g, lh, d, view)
    ensures InRange(d, CommitPoint(g, lh, view, d[g.start]))
    ensures Logged(g, lh, d, view, Apply(d, CommitPoint(g, lh, view, d[g.start])), |lh|, true)
  {
    CommitPrefix(g, lh, d, view, |lh|);
    var logs := LogWrites(g, lh, view);
    var ws := CommitPoint(g, lh, view, d[g.start]);
    assert ws[..|ws| - 1] == logs[..|lh|];
    HeaderCommits(g, lh, d, view, Apply(d, logs[..|lh|]));
  }

  lemma HeaderCommits(g: Geometry, lh: seq<int>, d: Disk, view: Disk, e: Disk)
    requires CommitReady(g, lh, d, view)
    requires Logged(g, lh, d, view, e, |lh|, false)
    ensures Logged(g, lh, d, view, e[g.start := PutHeader(d[g.start], lh)], |lh|, true)
  {
    assert g.InLog(g.start);
  }

  /**
   Crash points of commit: after k of its block writes the committed contents are still
   all old up to and including the last log-block write, and all new from the first
   header write on; after the last write the home blocks hold the new contents.
   */
  lemma CommitCrash(g: Geometry, lh: seq<int>, d: Disk, view: Disk, k: nat)
    requires CommitReady(g, lh, d, view)
    ensures InRange(d, CommitWrites(g, lh, view, d[g.start]))
    ensures Means(g, CrashAfter(d, CommitWrites(g, lh, view, d[g.start]), k), if k <= |lh| then d else view)
    ensures k >= 2 * |lh| + 2 ==> Holds(g, CrashAfter(d, CommitWrites(g, lh, view, d[g.start]), k), view)
  {
    CommitWritesInRange(g, lh, view, d[g.start]);
    var ws := CommitWrites(g, lh, view, d[g.start]);
    var logs := LogWrites(g, lh, view);
    if k <= |lh| {
      CommitPrefix(g, lh, d, view, k);
      assert ws[..k] == logs[..k];
      LoggedMeans(g, lh, d, view, CrashAfter(d, ws, k), k, false);
    } else {
      CommitSuffix(g, lh, d, view, k);
    }
  }

  /** From the commit point on, commit performs exactly the writes recovery would. */
  lemma CommitThenRecover(g: Geometry, lh: seq<int>, d: Disk, view: Disk, d1: Disk)
    requires CommitReady(g, lh, d, view)
    requires Logged(g, lh, d, view, d1, |lh|, true) && WellFormed(g, d1)
    ensures CommitWrites(g, lh, view, d[g.start]) == CommitPoint(g, lh, view, d[g.start]) + RecoverWrites(g, d1)
  {
    SameHomes(g, lh, d, view, d1);
    HeaderBack(d[g.start], lh);
    hide Logged, CommitPoint, InstallWrites, HomeWrites, PutHeader, HeaderOf, TxOk;
  }

  /** The log blocks written hold what the home blocks are to hold. */
  lemma SameHomes(g: Geometry, lh: seq<int>, d: Disk, view: Disk, d1: Disk)
    requires CommitReady(g, lh, d, view) && Logged(g, lh, d, view, d1, |lh|, true) && g.start + g.size <= |d1|
    ensures |d1| == |d| && d1[g.start] == PutHeader(d[g.start], lh)
    ensures InstallWrites(g, lh, d1) == HomeWrites(g, lh, view)
  {
    hide PutHeader, Holds;
    var ws, vs := InstallWrites(g, lh, d1), HomeWrites(g, lh, view);
    forall i | 0 <= i < |lh|
      ensures ws[i] == vs[i]
    {
    }
  }

  lemma HeaderBack(hdr: Block, lh: seq<int>)
    requires |hdr| == WORDS && |lh| <= LOGSIZE
    ensures HeaderOf(PutHeader(hdr, lh)) == lh
  {
  }

  lemma RecoveryMeans(g: Geometry, d: Disk, home: Disk, k: nat)
    requires Means(g, d, home)
    ensures InRange(d, RecoverWrites(g, d))
    ensures Means(g, CrashAfter(d, RecoverWrites(g, d), k), home)
    ensures k > |HeaderOf(d[g.start])| ==> Holds(g, CrashAfter(d, RecoverWrites(g, d), k), home)
  {
    RecoveryStep(g, d, k);
  }

  lemma CommitSuffix(g: Geometry, lh: seq<int>, d: Disk, view: Disk, k: nat)
    requires CommitReady(g, lh, d, view) && k > |lh|
    requires InRange(d, CommitWrites(g, lh, view, d[g.start]))
    ensures Means(g, CrashAfter(d, CommitWrites(g, lh, view, d[g.start]), k), view)
    ensures k >= 2 * |lh| + 2 ==> Holds(g, CrashAfter(d, CommitWrites(g, lh, view, d[g.start]), k), view)
  {
    hide CommitWrites, CommitPoint, RecoverWrites, Means, Logged;
    var pre := CommitPoint(g, lh, view, d[g.start]);
    CommitPointState(g, lh, d, view);
    CommitTail(g, lh, d, view, Apply(d, pre), k - |pre|);
    CrashConcat(d, pre, RecoverWrites(g, Apply(d, pre)), k);
  }

  lemma CommitTail(g: Geometry, lh: seq<int>, d: Disk, view: Disk, d1: Disk, k: nat)
    requires CommitReady(g, lh, d, view)
    requires Logged(g, lh, d, view, d1, |lh|, true)
    ensures WellFormed(g, d1) && InRange(d1, RecoverWrites(g, d1))
    ensures CommitWrites(g, lh, view, d[g.start]) == CommitPoint(g, lh, view, d[g.start]) + RecoverWrites(g, d1)
    ensures Means(g, CrashAfter(d1, RecoverWrites(g, d1), k), view)
    ensures k > |lh| ==> Holds(g, CrashAfter(d1, RecoverWrites(g, d1), k), view)
  {
    LoggedMeans(g, lh, d, view, d1, |lh|, true);
    CommitThenRecover(g, lh, d, view, d1);
    RecoveryMeans(g, d1, view, k);
  }

  lemma CrashConcat(d: Disk, ws: seq<Write>, vs: seq<Write>, k: nat)
    requires InRange(d, ws) && InRange(d, vs) && InRange(d, ws + vs) && k >= |ws|
    ensures CrashAfter(d, ws + vs, k) == CrashAfter(Apply(d, ws), vs, k - |ws|)
  {
    var j := k - |ws|;
    if j < |vs| {
      assert (ws + vs)[..k] == ws + vs[..j];
      ApplyConcat(d, ws, vs[..j]);
    } else {
      ApplyConcat(d, ws, vs);
    }
  }

  /** Any number of aborted recovery attempts leaves every committed content as it was. */
  lemma {:induction false} CrashesPreserve(g: Geometry, d: Disk, ks: seq<nat>)
    requires WellFormed(g, d)
    ensures forall b :: 0 <= b < |d| && !g.InLog(b) ==>
              Logical(g, AfterCrashes(g, d, ks), b) == Logical(g, d, b)
    decreases |ks|
  {
    if ks != [] {
      RecoverWritesInRange(g, d);
      RecoveryStep(g, d, ks[0]);
      CrashesPreserve(g, CrashAfter(d, RecoverWrites(g, d), ks[0]), ks[1..]);
    }
  }

  /** Recovery, whatever crashes preceded it, puts the committed contents in the home blocks. */
  lemma RecoveryInstalls(g: Geometry, d: Disk, ks: seq<nat>)
    requires WellFormed(g, d)
    ensures var e := Recovered(g, AfterCrashes(g, d, ks));
            && WellFormed(g, e) && HeaderOf(e[g.start]) == []
            && forall b :: 0 <= b < |d| && !g.InLog(b) ==> e[b] == Logical(g, d, b)
  {
    CrashesPreserve(g, d, ks);
    var c := AfterCrashes(g, d, ks);
    RecoverWritesInRange(g, c);
    RecoveryStep(g, c, |HeaderOf(c[g.start])| + 1);
  }

  /**
   Crash atomicity: power fails after k block writes of commit, then any number of
   recovery attempts fail too; once recovery finishes, the home blocks are together all
   old if the first header write had not reached the disk, and together all new if it had.
   */
  lemma CrashAtomicity(g: Geometry, lh: seq<int>, d: Disk, view: Disk, k: nat, ks: seq<nat>)
    requires CommitReady(g, lh, d, view)
    ensures InRange(d, CommitWrites(g, lh, view, d[g.start]))
    ensures WellFormed(g, CrashAfter(d, CommitWrites(g, lh, view, d[g.start]), k))
    ensures Holds(g, Recovered(g, AfterCrashes(g, CrashAfter(d, CommitWrites(g, lh, view, d[g.start]), k), ks)),
                  if k <= |lh| then d else view)
  {
    CommitCrash(g, lh, d, view, k);
    RecoveryInstalls(g, CrashAfter(d, CommitWrites(g, lh, view, d[g.start]), k), ks);
  }
}

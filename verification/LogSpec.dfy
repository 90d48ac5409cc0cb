/**
 * The redo log as a list of atomic sector writes, and crash atomicity over it.
 * A disk is the header's sector list, the log blocks and the home area; blocks are opaque here.
 */
module LogSpec {

  datatype Disk<B> = Disk(head: seq<nat>, slots: seq<B>, home: map<nat, B>)

  datatype Write<B> = Head(secs: seq<nat>) | Slot(i: nat, data: B) | Block(sector: nat, data: B)

  /** One log_write call: a home sector and its new content. */
  datatype Update<B> = Update(sector: nat, data: B)

  function ApplyOne<B>(d: Disk<B>, w: Write<B>): Disk<B> {
    match w
    case Head(secs) => d.(head := secs)
    case Slot(i, b) => if i < |d.slots| then d.(slots := d.slots[i := b]) else d
    case Block(s, b) => d.(home := d.home[s := b])
  }

  function Apply<B>(d: Disk<B>, ws: seq<Write<B>>): Disk<B> {
    if ws == [] then d else ApplyOne(Apply(d, ws[..|ws| - 1]), ws[|ws| - 1])
  }

  /** The header fits the log and names sectors of the disk. */
  predicate Formatted<B>(d: Disk<B>) {
    |d.head| <= |d.slots| && forall i :: 0 <= i < |d.head| ==> d.head[i] in d.home
  }

  predicate SameShape<B>(d: Disk<B>, e: Disk<B>) {
    |d.slots| == |e.slots| && d.home.Keys == e.home.Keys
  }

  // ---- what the disk stands for ---------------------------------------------------

  /** The home area after copying the first k log blocks home. */
  function Install<B>(d: Disk<B>, k: nat): (h: map<nat, B>)
    requires k <= |d.head| <= |d.slots|
  {
    if k == 0 then d.home else Install(d, k - 1)[d.head[k - 1] := d.slots[k - 1]]
  }

  /** The home area recovery would leave behind: the state the disk stands for. */
  function Durable<B>(d: Disk<B>): map<nat, B>
    requires Formatted(d)
  {
    Install(d, |d.head|)
  }

  /** install_trans, then an empty header: all of recover_from_log, and the tail of commit_trans. */
  function RecoverWrites<B>(d: Disk<B>): (ws: seq<Write<B>>)
    requires Formatted(d)
    ensures |ws| == |d.head| + 1
  {
    seq(|d.head|, i requires 0 <= i < |d.head| => Block(d.head[i], d.slots[i])) + [Head([])]
  }

  lemma {:induction false} ApplyAppend<B>(d: Disk<B>, ws: seq<Write<B>>, vs: seq<Write<B>>)
    ensures Apply(d, ws + vs) == Apply(Apply(d, ws), vs)
  {
    if vs == [] {
      assert ws + vs == ws;
    } else {
      ApplyAppend(d, ws, vs[..|vs| - 1]);
      assert (ws + vs)[..|ws + vs| - 1] == ws + vs[..|vs| - 1];
    }
  }

  // ---- recovery ---------------------------------------------------------------------

  lemma {:induction false} InstallPrefix<B>(d: Disk<B>, j: nat)
    requires Formatted(d) && j <= |d.head|
    ensures Apply(d, RecoverWrites(d)[..j]) == d.(home := Install(d, j))
  {
    if j > 0 {
      InstallPrefix(d, j - 1);
      assert RecoverWrites(d)[..j][..j - 1] == RecoverWrites(d)[..j - 1];
    }
  }

  lemma {:induction false} InstallKeys<B>(d: Disk<B>, k: nat)
    requires Formatted(d) && k <= |d.head|
    ensures Install(d, k).Keys == d.home.Keys
  {
    if k > 0 { InstallKeys(d, k - 1); }
  }

  /** Copying home again, on top of a partial copy, makes no difference. */
  lemma {:induction false} Redo<B>(d: Disk<B>, j: nat, k: nat, s: nat)
    requires Formatted(d) && j <= |d.head| && k <= |d.head| && s in d.home
    ensures var e := d.(home := Install(d, j));
            s in Install(e, k) && s in Install(d, k) && s in Install(d, j)
            && Install(e, k)[s] == if s in d.head[..k] then Install(d, k)[s] else Install(d, j)[s]
    decreases k
  {
    InstallKeys(d, j);
    if k > 0 {
      Redo(d, j, k - 1, s);
      assert d.head[..k] == d.head[..k - 1] + [d.head[k - 1]];
    }
  }

  lemma {:induction false} InstallOther<B>(d: Disk<B>, k: nat, s: nat)
    requires Formatted(d) && k <= |d.head| && s in d.home && s !in d.head[..k]
    ensures s in Install(d, k) && Install(d, k)[s] == d.home[s]
  {
    if k > 0 {
      assert d.head[..k] == d.head[..k - 1] + [d.head[k - 1]];
      InstallOther(d, k - 1, s);
    }
  }

  lemma RedoAll<B>(d: Disk<B>, j: nat)
    requires Formatted(d) && j <= |d.head|
    ensures Formatted(d.(home := Install(d, j))) && Durable(d.(home := Install(d, j))) == Durable(d)
  {
    InstallKeys(d, j);
    var e := d.(home := Install(d, j));
    InstallKeys(e, |e.head|);
    InstallKeys(d, |d.head|);
    forall s | s in d.home ensures Durable(e)[s] == Durable(d)[s] {
      Redo(d, j, |d.head|, s);
      assert d.head[..|d.head|] == d.head;
      if s !in d.head {
        InstallOther(d, j, s);
        InstallOther(d, |d.head|, s);
      }
    }
  }

  /**
   * Crash tolerance of recovery: after any prefix of its writes the disk stands for the same
   * state, and after all of them the home area is that state and the log is empty.
   */
  lemma RecoveryKeepsDurable<B>(d: Disk<B>, j: nat)
    requires Formatted(d) && j <= |RecoverWrites(d)|
    ensures var e := Apply(d, RecoverWrites(d)[..j]);
            && Formatted(e) && SameShape(e, d) && Durable(e) == Durable(d) && |e.head| <= |d.head|
            && (j == |RecoverWrites(d)| ==> e.head == [] && e.home == Durable(d))
  {
    var n := |d.head|;
    if j <= n {
      InstallPrefix(d, j);
      InstallKeys(d, j);
      RedoAll(d, j);
    } else {
      InstallPrefix(d, n);
      InstallKeys(d, n);
      assert RecoverWrites(d)[..j][..n] == RecoverWrites(d)[..n];
    }
  }

  /** Boots that each crash in the middle of recovery, after the given numbers of sector writes. */
  function CrashedBoots<B>(d: Disk<B>, ks: seq<nat>): (e: Disk<B>)
    requires Formatted(d)
    ensures Formatted(e) && SameShape(e, d) && Durable(e) == Durable(d)
    decreases |ks|
  {
    if ks == [] then d
    else
      var ws := RecoverWrites(d);
      var k := if ks[0] <= |ws| then ks[0] else |ws|;
      RecoveryKeepsDurable(d, k);
      CrashedBoots(Apply(d, ws[..k]), ks[1..])
  }

  /** Any number of interrupted recoveries and then one that completes. */
  function Reboot<B>(d: Disk<B>, ks: seq<nat>): (e: Disk<B>)
    requires Formatted(d)
    ensures SameShape(e, d) && e.head == [] && e.home == Durable(d)
  {
    var c := CrashedBoots(d, ks);
    RecoveryKeepsDurable(c, |RecoverWrites(c)|);
    assert RecoverWrites(c)[..|RecoverWrites(c)|] == RecoverWrites(c);
    Apply(c, RecoverWrites(c))
  }

  // ---- one transaction -----------------------------------------------------------------

  function IndexOf(secs: seq<nat>, s: nat): (i: nat)
    ensures i <= |secs|
    ensures i < |secs| ==> secs[i] == s
    ensures forall j :: 0 <= j < i ==> secs[j] != s
  {
    if secs == [] || secs[0] == s then 0 else 1 + IndexOf(secs[1..], s)
  }

  /** The sectors of a list of log_write calls in order of first use; a repeated one is absorbed. */
  function Logged<B>(ups: seq<Update<B>>): (secs: seq<nat>)
    ensures |secs| <= |ups|
    ensures forall i, j :: 0 <= i < j < |secs| ==> secs[i] != secs[j]
  {
    if ups == [] then []
    else
      var (secs, s) := (Logged(ups[..|ups| - 1]), ups[|ups| - 1].sector);
      if IndexOf(secs, s) < |secs| then secs else secs + [s]
  }

  /** The home area after those calls. */
  function Updated<B>(h: map<nat, B>, ups: seq<Update<B>>): map<nat, B> {
    if ups == [] then h else Updated(h, ups[..|ups| - 1])[ups[|ups| - 1].sector := ups[|ups| - 1].data]
  }

  /** The log-block writes of those calls. */
  function LogWrites<B>(ups: seq<Update<B>>): (ws: seq<Write<B>>)
    ensures |ws| == |ups|
  {
    if ups == [] then []
    else
      var (pre, u) := (ups[..|ups| - 1], ups[|ups| - 1]);
      LogWrites(pre) + [Slot(IndexOf(Logged(pre), u.sector), u.data)]
  }

  /** The transaction fits the log and writes only sectors of the home area. */
  predicate Loggable<B>(d: Disk<B>, ups: seq<Update<B>>) {
    |Logged(ups)| <= |d.slots| && forall i :: 0 <= i < |ups| ==> ups[i].sector in d.home
  }

  lemma LoggablePrefix<B>(d: Disk<B>, ups: seq<Update<B>>)
    requires Loggable(d, ups) && ups != []
    ensures Loggable(d, ups[..|ups| - 1])
  {
    assert |Logged(ups[..|ups| - 1])| <= |Logged(ups)|;
  }

  /** Before the commit header only log blocks change, and block i is the newest one of sector i. */
  lemma {:induction false} Logging<B>(d: Disk<B>, ups: seq<Update<B>>)
    requires Loggable(d, ups)
    ensures var e := Apply(d, LogWrites(ups));
            && e.head == d.head && e.home == d.home && |e.slots| == |d.slots|
            && forall i :: 0 <= i < |Logged(ups)| ==>
                 Logged(ups)[i] in Updated(d.home, ups) && e.slots[i] == Updated(d.home, ups)[Logged(ups)[i]]
  {
    if ups != [] {
      LoggablePrefix(d, ups);
      Logging(d, ups[..|ups| - 1]);
      assert LogWrites(ups)[..|ups| - 1] == LogWrites(ups[..|ups| - 1]);
    }
  }

  lemma {:induction false} UpdatedAt<B>(h: map<nat, B>, ups: seq<Update<B>>, s: nat)
    requires s !in Logged(ups)
    ensures s in Updated(h, ups) <==> s in h
    ensures s in h ==> Updated(h, ups)[s] == h[s]
  {
    if ups != [] {
      var secs := Logged(ups[..|ups| - 1]);
      assert IndexOf(secs, ups[|ups| - 1].sector) < |secs| ==> ups[|ups| - 1].sector in secs;
      UpdatedAt(h, ups[..|ups| - 1], s);
    }
  }

  lemma {:induction false} LoggedInHome<B>(d: Disk<B>, ups: seq<Update<B>>)
    requires Loggable(d, ups)
    ensures forall s :: s in Logged(ups) ==> s in d.home
  {
    if ups != [] {
      LoggablePrefix(d, ups);
      LoggedInHome(d, ups[..|ups| - 1]);
    }
  }

  /** The disk at the commit point: log blocks and header out, home area untouched. */
  function CommitPoint<B>(d: Disk<B>, ups: seq<Update<B>>): (c: Disk<B>)
    requires Loggable(d, ups)
    ensures Formatted(c) && SameShape(c, d)
  {
    Logging(d, ups);
    LoggedInHome(d, ups);
    Apply(d, LogWrites(ups)).(head := Logged(ups))
  }

  /** Distinct targets: each installed sector ends with its own log block. */
  lemma {:induction false} InstallAt<B>(d: Disk<B>, k: nat, i: nat)
    requires Formatted(d) && i < k <= |d.head|
    requires forall i, j :: 0 <= i < j < |d.head| ==> d.head[i] != d.head[j]
    ensures d.head[i] in Install(d, k) && Install(d, k)[d.head[i]] == d.slots[i]
  {
    if i < k - 1 { InstallAt(d, k - 1, i); }
  }

  /** Once the commit header is down, the disk stands for the state after the transaction. */
  lemma Committed<B>(d: Disk<B>, ups: seq<Update<B>>)
    requires Loggable(d, ups)
    ensures Durable(CommitPoint(d, ups)) == Updated(d.home, ups)
  {
    var c := CommitPoint(d, ups);
    var n := |c.head|;
    Logging(d, ups);
    InstallKeys(c, n);
    forall s
      ensures s in Durable(c) <==> s in Updated(d.home, ups)
      ensures s in Durable(c) ==> Durable(c)[s] == Updated(d.home, ups)[s]
    {
      if s in c.head {
        var i :| 0 <= i < n && c.head[i] == s;
        InstallAt(c, n, i);
      } else {
        assert c.head[..n] == c.head;
        UpdatedAt(d.home, ups, s);
        if s in d.home { InstallOther(c, n, s); }
      }
    }
  }

  /** Every sector write of one transaction: log blocks, commit header, installs, cleared header. */
  function TransactionWrites<B>(d: Disk<B>, ups: seq<Update<B>>): (ws: seq<Write<B>>)
    requires Loggable(d, ups)
    ensures |ws| >= |ups|
  {
    if ups == [] then [] else LogWrites(ups) + [Head(Logged(ups))] + RecoverWrites(CommitPoint(d, ups))
  }

  lemma {:induction false} LogPrefix<B>(d: Disk<B>, ups: seq<Update<B>>, k: nat)
    requires Loggable(d, ups) && k <= |ups|
    ensures LogWrites(ups)[..k] == LogWrites(ups[..k]) && Loggable(d, ups[..k])
  {
    if k == |ups| {
      assert ups[..k] == ups;
    } else {
      LoggablePrefix(d, ups);
      LogPrefix(d, ups[..|ups| - 1], k);
      assert ups[..|ups| - 1][..k] == ups[..k];
      assert LogWrites(ups)[..k] == LogWrites(ups[..|ups| - 1])[..k];
    }
  }

  /**
   * Crash atomicity of one transaction. After a crash following any k of its sector writes the
   * disk stands for the state before it or, exactly when the commit header got out, after it.
   */
  lemma CrashAtomic<B>(d: Disk<B>, ups: seq<Update<B>>, k: nat)
    requires d.head == [] && Loggable(d, ups) && k <= |TransactionWrites(d, ups)|
    ensures var e := Apply(d, TransactionWrites(d, ups)[..k]);
            && Formatted(e) && SameShape(e, d) && |e.head| <= |Logged(ups)|
            && Durable(e) == (if k > |ups| then Updated(d.home, ups) else d.home)
            && (k == |TransactionWrites(d, ups)| ==> e.head == [] && e.home == Durable(e))
  {
    if k <= |ups| {
      BeforeHeader(d, ups, k);
    } else {
      AfterHeader(d, ups, k);
    }
    hide Apply, TransactionWrites, Durable, Updated, Loggable;
  }

  lemma BeforeHeader<B>(d: Disk<B>, ups: seq<Update<B>>, k: nat)
    requires d.head == [] && Loggable(d, ups) && k <= |ups|
    ensures var e := Apply(d, TransactionWrites(d, ups)[..k]);
            && Formatted(e) && SameShape(e, d) && e.head == [] && Durable(e) == e.home == d.home
  {
    LogPrefix(d, ups, k);
    Logging(d, ups[..k]);
    assert ups != [] ==> TransactionWrites(d, ups)[..k] == LogWrites(ups)[..k];
  }

  lemma AfterHeader<B>(d: Disk<B>, ups: seq<Update<B>>, k: nat)
    requires Loggable(d, ups) && |ups| < k <= |TransactionWrites(d, ups)|
    ensures var e := Apply(d, TransactionWrites(d, ups)[..k]);
            && Formatted(e) && SameShape(e, d) && |e.head| <= |Logged(ups)| && Durable(e) == Updated(d.home, ups)
            && (k == |TransactionWrites(d, ups)| ==> e.head == [] && e.home == Durable(e))
  {
    hide Durable, Updated, Loggable;
    var c := CommitPoint(d, ups);
    var cws := LogWrites(ups) + [Head(Logged(ups))];
    var j := k - |cws|;
    assert TransactionWrites(d, ups)[..k] == cws + RecoverWrites(c)[..j];
    assert cws[..|cws| - 1] == LogWrites(ups);
    ApplyAppend(d, cws, RecoverWrites(c)[..j]);
    Committed(d, ups);
    RecoveryKeepsDurable(c, j);
  }

  // ---- whole runs -----------------------------------------------------------------------

  /** A transaction that completes, or one cut off after k sector writes and followed by reboots. */
  datatype Event<B> = Complete(ups: seq<Update<B>>) | CutOff(ups: seq<Update<B>>, k: nat, boots: seq<nat>)

  predicate Runnable<B>(d: Disk<B>, run: seq<Event<B>>) {
    forall i :: 0 <= i < |run| ==> Loggable(d, run[i].ups)
  }

  /** What the disk goes through. */
  function RunDisk<B>(d: Disk<B>, run: seq<Event<B>>): (e: Disk<B>)
    requires d.head == [] && Runnable(d, run)
    ensures e.head == [] && SameShape(e, d)
  {
    if run == [] then d
    else
      var c := RunDisk(d, run[..|run| - 1]);
      var ev := run[|run| - 1];
      assert Loggable(c, ev.ups);
      var ws := TransactionWrites(c, ev.ups);
      var k := if ev.Complete? || ev.k > |ws| then |ws| else ev.k;
      CrashAtomic(c, ev.ups, k);
      var e := Apply(c, ws[..k]);
      if ev.Complete? then e else Reboot(e, ev.boots)
  }

  /** What a user of an atomic store would see. */
  function RunSpec<B>(h: map<nat, B>, run: seq<Event<B>>): map<nat, B> {
    if run == [] then h
    else
      var (g, ev) := (RunSpec(h, run[..|run| - 1]), run[|run| - 1]);
      if ev.Complete? || ev.k > |ev.ups| then Updated(g, ev.ups) else g
  }

  /** For every run, with crashes anywhere, the home area is that of an atomic store. */
  lemma {:induction false} RunsAreAtomic<B>(d: Disk<B>, run: seq<Event<B>>)
    requires d.head == [] && Runnable(d, run)
    ensures RunDisk(d, run).home == RunSpec(d.home, run)
  {
    if run != [] {
      RunsAreAtomic(d, run[..|run| - 1]);
      var c := RunDisk(d, run[..|run| - 1]);
      var ev := run[|run| - 1];
      assert Loggable(c, ev.ups);
      var ws := TransactionWrites(c, ev.ups);
      var k := if ev.Complete? || ev.k > |ws| then |ws| else ev.k;
      CrashAtomic(c, ev.ups, k);
    }
  }
}

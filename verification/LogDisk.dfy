/** Where the log lives on a flat disk of sectors: the header block's words and the log blocks. */
module LogDisk {
  import opened Words
  import opened LogSpec

  const LOGSIZE: nat := 10

  type Flat = map<nat, Words.Block>

  /** Sector writes, oldest first. */
  type Trace = seq<(nat, Words.Block)>

  type Updates = seq<Update<Words.Block>>

  /** A header sector at `start`, then size - 1 log blocks. */
  datatype Area = Area(start: nat, size: nat) {
    predicate InLog(s: nat) { start <= s < start + size }
  }

  /** The sector list of a header block: a count and that many sector numbers; past the block they read as 0. */
  function HeadOf(h: Words.Block): (secs: seq<nat>)
    ensures |secs| == LoadU32(h, 0)
  {
    seq(LoadU32(h, 0), i requires 0 <= i => if i < 127 then LoadU32(h, 4 + 4 * i) else 0)
  }

  predicate OnDisk(a: Area, d: Flat) {
    1 <= a.size && forall s :: a.start <= s < a.start + a.size ==> s in d
  }

  function Decode(a: Area, d: Flat): LogSpec.Disk<Words.Block>
    requires OnDisk(a, d)
  {
    LogSpec.Disk(
      HeadOf(d[a.start]),
      seq(a.size - 1, i requires 0 <= i < a.size - 1 => d[a.start + 1 + i]),
      map s | s in d && !a.InLog(s) :: d[s])
  }

  /** A disk that recovery can start from: its header fits the log area and the header in memory. */
  predicate Bootable(a: Area, d: Flat) {
    OnDisk(a, d) && Formatted(Decode(a, d)) && |Decode(a, d).head| <= LOGSIZE
  }

  /** What a sector write means for the log. */
  function Meaning(a: Area, s: nat, b: Words.Block): Write<Words.Block> {
    if s == a.start then Head(HeadOf(b))
    else if a.InLog(s) then Slot(s - a.start - 1, b)
    else LogSpec.Block(s, b)
  }

  lemma DecodeWrite(a: Area, d: Flat, s: nat, b: Words.Block)
    requires OnDisk(a, d) && s in d
    ensures Decode(a, d[s := b]) == ApplyOne(Decode(a, d), Meaning(a, s, b))
  {
    var e := d[s := b];
    var f := ApplyOne(Decode(a, d), Meaning(a, s, b));
    assert Decode(a, e).head == f.head;
    assert Decode(a, e).slots == f.slots;
    assert Decode(a, e).home == f.home;
  }

  // ---- traces of sector writes --------------------------------------------------------

  function Meanings(a: Area, ws: Trace): (r: seq<Write<Words.Block>>)
    ensures |r| == |ws|
  {
    seq(|ws|, i requires 0 <= i < |ws| => Meaning(a, ws[i].0, ws[i].1))
  }

  function Replay(d: Flat, ws: Trace): Flat {
    if ws == [] then d else Replay(d, ws[..|ws| - 1])[ws[|ws| - 1].0 := ws[|ws| - 1].1]
  }

  /** Replaying a trace on the sectors is applying its meaning to the log. */
  lemma {:induction false} ReplayMeans(a: Area, d: Flat, ws: Trace)
    requires OnDisk(a, d) && forall i :: 0 <= i < |ws| ==> ws[i].0 in d
    ensures Replay(d, ws).Keys == d.Keys
    ensures Decode(a, Replay(d, ws)) == Apply(Decode(a, d), Meanings(a, ws))
  {
    if ws != [] {
      var n := |ws| - 1;
      ReplayMeans(a, d, ws[..n]);
      assert Meanings(a, ws)[..n] == Meanings(a, ws[..n]);
      DecodeWrite(a, Replay(d, ws[..n]), ws[n].0, ws[n].1);
    }
  }

  /** A log of zeros, as mkfs writes it, is empty: recovery can start from it and finds the home area as it is. */
  lemma BlankLog(a: Area, d: Flat)
    requires OnDisk(a, d) && d[a.start] == ZeroBlock()
    ensures Bootable(a, d) && Durable(Decode(a, d)) == Decode(a, d).home
  {
  }
}

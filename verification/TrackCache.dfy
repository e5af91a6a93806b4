/**
 The floppy driver's track buffers: a cache of whole tracks, written back late, in the order of their last
 use.  All tracks of a drive have the drive's format.
 */
module TrackCache {

  const TBCLEN: nat := 10
  const TRACKS: nat := 160
  const NDRIVES: nat := 4

  type Block = seq<int>

  /** Sectors per track of each drive's format. */
  type Geometry = g: seq<nat> | |g| == NDRIVES && forall d: nat :: d < NDRIVES ==> g[d] in {9, 11, 18}
    witness [11, 11, 11, 11]

  datatype Key = Key(drv: nat, trk: nat)

  predicate Valid(k: Key)
  {
    k.drv < NDRIVES && k.trk < TRACKS
  }

  const ZERO: Block := seq(512, _ => 0)

  function Zeros(n: nat): (data: seq<Block>)
    ensures |data| == n
  {
    seq(n, _ => ZERO)
  }

  datatype Slot = Free | Held(key: Key, data: seq<Block>, dirty: bool, check: bool)

  type Disk = map<Key, seq<Block>>

  /** The physical disks, and the cache with the track used last in front. */
  datatype State = State(disk: Disk, cache: seq<Slot>)

  // ----- what is where

  predicate Holds(s: Slot, k: Key)
  {
    s.Held? && s.key == k
  }

  /** Where a track is cached; |cache| if it is not. */
  function IndexOf(cache: seq<Slot>, k: Key): (i: nat)
    ensures i <= |cache|
    ensures i < |cache| ==> Holds(cache[i], k)
    ensures forall j: nat :: j < i ==> !Holds(cache[j], k)
  {
    if cache == [] then 0
    else if Holds(cache[0], k) then 0
    else
      var i := IndexOf(cache[1..], k);
      assert forall j: nat :: 0 < j < i + 1 ==> cache[j] == cache[1..][j - 1];
      i + 1
  }

  predicate Cached(s: State, k: Key)
  {
    IndexOf(s.cache, k) < |s.cache|
  }

  /** The track as a reader sees it: cache over disk. */
  function Logical(s: State, k: Key): (data: seq<Block>)
    requires k in s.disk
  {
    var i := IndexOf(s.cache, k);
    if i < |s.cache| then s.cache[i].data else s.disk[k]
  }

  ghost predicate DiskOk(g: Geometry, disk: Disk)
  {
    forall k: Key :: Valid(k) ==> k in disk && |disk[k]| == g[k.drv]
  }

  ghost predicate SlotOk(g: Geometry, disk: Disk, s: Slot)
  {
    s.Held? ==> Valid(s.key) && |s.data| == g[s.key.drv] && (!s.dirty ==> s.key in disk && disk[s.key] == s.data)
  }

  /** No track is in the cache twice, and a track that is not dirty is as it is on the disk. */
  ghost predicate Inv(g: Geometry, s: State)
  {
    && |s.cache| == TBCLEN && DiskOk(g, s.disk)
    && (forall i: nat :: i < TBCLEN ==> SlotOk(g, s.disk, s.cache[i]))
    && (forall i: nat, j: nat :: i < j < TBCLEN && s.cache[i].Held? ==> !Holds(s.cache[j], s.cache[i].key))
  }

  // ----- the operations, as functions on states

  /** put, for a slot that leaves the cache: its errors are ignored. */
  function Written(disk: Disk, s: Slot): (disk': Disk)
  {
    if s.Held? && s.dirty then disk[s.key := s.data] else disk
  }

  function ToFront(cache: seq<Slot>, i: nat): (cache': seq<Slot>)
    requires i < |cache|
    ensures |cache'| == |cache|
  {
    [cache[i]] + cache[..i] + cache[i + 1..]
  }

  /** The last slot gives way, and is written to the disk first if it has to be. */
  function Evicted(s: State, slot: Slot): (s': State)
    requires |s.cache| == TBCLEN
  {
    State(Written(s.disk, s.cache[TBCLEN - 1]), [slot] + s.cache[..TBCLEN - 1])
  }

  /** The slot that findtrk puts in front when the track is not cached. */
  function NewSlot(g: Geometry, disk: Disk, k: Key, read: bool, getOk: bool): (slot: Slot)
    requires k in disk && k.drv < NDRIVES
  {
    if !read then Held(k, Zeros(g[k.drv]), true, false) else if getOk then Held(k, disk[k], false, true) else Free
  }

  /** findtrk: the wanted track is in front, unless it had to be read and could not be. */
  function Found(g: Geometry, s: State, k: Key, read: bool, getOk: bool): (s': State)
    requires |s.cache| == TBCLEN && k in s.disk && k.drv < NDRIVES
  {
    var i := IndexOf(s.cache, k);
    if i < TBCLEN then s.(cache := ToFront(s.cache, i))
    else
      Evicted(s, NewSlot(g, Written(s.disk, s.cache[TBCLEN - 1]), k, read, getOk))
  }

  function FlushedSlot(s: Slot, drv: nat): (s': Slot)
  {
    if s.Held? && s.key.drv == drv then Free else s
  }

  /** flush, after the first n slots. */
  function FlushedUpTo(s: State, drv: nat, n: nat): (s': State)
    requires n <= |s.cache|
    ensures |s'.cache| == |s.cache|
  {
    if n == 0 then s
    else
      var s1 := FlushedUpTo(s, drv, n - 1);
      var slot := s1.cache[n - 1];
      State(if slot.Held? && slot.key.drv == drv then Written(s1.disk, slot) else s1.disk,
            s1.cache[n - 1 := FlushedSlot(slot, drv)])
  }

  function Flushed(s: State, drv: nat): (s': State)
  {
    FlushedUpTo(s, drv, |s.cache|)
  }

  // ----- findtrk changes nothing that a reader sees

  lemma IndexIs(cache: seq<Slot>, k: Key, i: nat)
    requires i < |cache| && Holds(cache[i], k) && forall j: nat :: j < |cache| && j != i ==> !Holds(cache[j], k)
    ensures IndexOf(cache, k) == i
  {
  }

  lemma NotCached(cache: seq<Slot>, k: Key)
    requires forall j: nat :: j < |cache| ==> !Holds(cache[j], k)
    ensures IndexOf(cache, k) == |cache|
  {
  }

  lemma LogicalIs(g: Geometry, s: State, k: Key, i: nat)
    requires Inv(g, s) && i < TBCLEN && Holds(s.cache[i], k) && k in s.disk
    ensures Logical(s, k) == s.cache[i].data && IndexOf(s.cache, k) == i
  {
    IndexIs(s.cache, k, i);
  }

  /** Where a slot goes when slot i goes to the front, and where it comes from. */
  function Later(i: nat, j: nat): nat
  {
    if j == i then 0 else if j < i then j + 1 else j
  }

  function Earlier(i: nat, j: nat): nat
  {
    if j == 0 then i else if j <= i then j - 1 else j
  }

  lemma ToFrontMoves(cache: seq<Slot>, i: nat)
    requires i < |cache|
    ensures forall j: nat :: j < |cache| ==> ToFront(cache, i)[Later(i, j)] == cache[j]
    ensures forall j: nat :: j < |cache| ==> ToFront(cache, i)[j] == cache[Earlier(i, j)]
  {
  }

  lemma ToFrontAt(cache: seq<Slot>, i: nat, j: nat)
    requires i < |cache| && j < |cache|
    ensures Earlier(i, j) < |cache| && ToFront(cache, i)[j] == cache[Earlier(i, j)]
  {
  }

  lemma HitKeepsInv(g: Geometry, s: State, i: nat)
    requires Inv(g, s) && i < TBCLEN
    ensures Inv(g, s.(cache := ToFront(s.cache, i)))
  {
    var c := ToFront(s.cache, i);
    forall a: nat | a < TBCLEN
      ensures SlotOk(g, s.disk, c[a])
    {
      ToFrontAt(s.cache, i, a);
    }
    forall a: nat, b: nat | a < b < TBCLEN && c[a].Held?
      ensures !Holds(c[b], c[a].key)
    {
      ToFrontAt(s.cache, i, a);
      ToFrontAt(s.cache, i, b);
    }
  }

  lemma HitKeepsLogical(g: Geometry, s: State, i: nat, k: Key)
    requires Inv(g, s) && i < TBCLEN && k in s.disk
    ensures Logical(s.(cache := ToFront(s.cache, i)), k) == Logical(s, k)
  {
    var s' := s.(cache := ToFront(s.cache, i));
    HitKeepsInv(g, s, i);
    ToFrontMoves(s.cache, i);
    var j := IndexOf(s.cache, k);
    if j < TBCLEN {
      assert s'.cache[Later(i, j)] == s.cache[j];
      LogicalIs(g, s', k, Later(i, j));
    } else {
      forall n: nat | n < TBCLEN
        ensures !Holds(s'.cache[n], k)
      {
        assert s'.cache[n] == s.cache[Earlier(i, n)];
      }
      NotCached(s'.cache, k);
    }
  }

  lemma EvictKeepsInv(g: Geometry, s: State, slot: Slot)
    requires Inv(g, s) && SlotOk(g, Written(s.disk, s.cache[TBCLEN - 1]), slot)
    requires slot.Held? ==> !Cached(s, slot.key)
    ensures Inv(g, Evicted(s, slot))
  {
    var s', last := Evicted(s, slot), s.cache[TBCLEN - 1];
    forall i: nat | i < TBCLEN
      ensures SlotOk(g, s'.disk, s'.cache[i])
    {
      if i > 0 {
        assert s'.cache[i] == s.cache[i - 1] && SlotOk(g, s.disk, s.cache[i - 1]);
      }
    }
    forall i: nat, j: nat | i < j < TBCLEN && s'.cache[i].Held?
      ensures !Holds(s'.cache[j], s'.cache[i].key)
    {
      assert s'.cache[j] == s.cache[j - 1];
    }
    assert SlotOk(g, s.disk, last);
  }

  lemma EvictKeepsLogical(g: Geometry, s: State, slot: Slot, k: Key)
    requires Inv(g, s) && SlotOk(g, Written(s.disk, s.cache[TBCLEN - 1]), slot) && (slot.Held? ==> !Cached(s, slot.key))
    requires k in s.disk && !Holds(slot, k)
    ensures k in Evicted(s, slot).disk && Logical(Evicted(s, slot), k) == Logical(s, k)
  {
    var s' := Evicted(s, slot);
    EvictKeepsInv(g, s, slot);
    var j := IndexOf(s.cache, k);
    if j < TBCLEN - 1 {
      assert s'.cache[j + 1] == s.cache[j];
      LogicalIs(g, s', k, j + 1);
    } else {
      forall n: nat | n < TBCLEN
        ensures !Holds(s'.cache[n], k)
      {
        if n > 0 {
          assert s'.cache[n] == s.cache[n - 1];
        }
      }
      NotCached(s'.cache, k);
      assert j < TBCLEN ==> SlotOk(g, s.disk, s.cache[j]);
    }
  }

  lemma FoundKeepsInv(g: Geometry, s: State, k: Key, read: bool, getOk: bool)
    requires Inv(g, s) && Valid(k)
    ensures Inv(g, Found(g, s, k, read, getOk))
  {
    var i := IndexOf(s.cache, k);
    if i < TBCLEN {
      HitKeepsInv(g, s, i);
    } else {
      assert SlotOk(g, s.disk, s.cache[TBCLEN - 1]);
      EvictKeepsInv(g, s, NewSlot(g, Written(s.disk, s.cache[TBCLEN - 1]), k, read, getOk));
    }
  }

  /** findtrk changes no track that a reader sees, not even when it fails; except that a track which it need not
      read, and which is not cached, becomes all zeros. */
  lemma FoundKeepsLogical(g: Geometry, s: State, k: Key, read: bool, getOk: bool, other: Key)
    requires Inv(g, s) && Valid(k) && Valid(other)
    ensures var s' := Found(g, s, k, read, getOk);
            other in s'.disk
            && Logical(s', other) == if other == k && !read && !Cached(s, k) then Zeros(g[k.drv]) else Logical(s, other)
  {
    var i, s' := IndexOf(s.cache, k), Found(g, s, k, read, getOk);
    FoundKeepsInv(g, s, k, read, getOk);
    if i < TBCLEN {
      HitKeepsLogical(g, s, i, other);
    } else {
      var last := s.cache[TBCLEN - 1];
      assert SlotOk(g, s.disk, last);
      var slot := NewSlot(g, Written(s.disk, last), k, read, getOk);
      if Holds(slot, other) {
        LogicalIs(g, s', other, 0);
      } else {
        EvictKeepsLogical(g, s, slot, other);
      }
    }
  }

  /** When it succeeds, the track is in front. */
  lemma FoundIsInFront(g: Geometry, s: State, k: Key, read: bool, getOk: bool)
    requires Inv(g, s) && Valid(k)
    ensures Holds(Found(g, s, k, read, getOk).cache[0], k) <==> Cached(s, k) || !read || getOk
  {
    var i := IndexOf(s.cache, k);
    if i < TBCLEN {
      ToFrontMoves(s.cache, i);
    }
  }

  // ----- blocks

  /** The track of a block, and its place there. */
  function TrackOf(g: Geometry, drv: nat, bno: nat): (k: Key)
    requires drv < NDRIVES
  {
    Key(drv, bno / g[drv])
  }

  function Sector(g: Geometry, drv: nat, bno: nat): (sec: nat)
    requires drv < NDRIVES
    ensures sec < g[drv]
  {
    bno % g[drv]
  }

  function Blocks(g: Geometry, drv: nat): (n: nat)
    requires drv < NDRIVES
  {
    if g[drv] == 9 then 9 * TRACKS else if g[drv] == 11 then 11 * TRACKS else 18 * TRACKS
  }

  lemma TrackIsValid(g: Geometry, drv: nat, bno: nat)
    requires drv < NDRIVES && bno < Blocks(g, drv)
    ensures Valid(TrackOf(g, drv, bno))
  {
    if g[drv] == 9 {
      assert bno / 9 < TRACKS;
    } else if g[drv] == 11 {
      assert bno / 11 < TRACKS;
    } else {
      assert bno / 18 < TRACKS;
    }
  }

  datatype Result = Done(block: Block) | Failed | End

  datatype Answer = Answer(s: State, result: Result)

  predicate Available(s: State, k: Key, getOk: bool)
  {
    Cached(s, k) || getOk
  }

  /** read: one block; not an error just past the last one. */
  function Read(g: Geometry, s: State, drv: nat, bno: nat, getOk: bool): (a: Answer)
    requires Inv(g, s) && drv < NDRIVES
  {
    if bno >= Blocks(g, drv) then Answer(s, if bno == Blocks(g, drv) then End else Failed)
    else
      TrackIsValid(g, drv, bno);
      var k := TrackOf(g, drv, bno);
      var s' := Found(g, s, k, true, getOk);
      FoundIsInFront(g, s, k, true, getOk);
      FoundKeepsInv(g, s, k, true, getOk);
      if Available(s, k, getOk) then
        assert SlotOk(g, s'.disk, s'.cache[0]);
        Answer(s', Done(s'.cache[0].data[Sector(g, drv, bno)]))
      else Answer(s', Failed)
  }

  /** The track in front gets a new block. */
  function Stored(s: State, sec: nat, b: Block): (s': State)
    requires |s.cache| == TBCLEN && s.cache[0].Held? && sec < |s.cache[0].data|
  {
    var slot := s.cache[0];
    s.(cache := s.cache[0 := slot.(data := slot.data[sec := b], dirty := true)])
  }

  /** write */
  function Write(g: Geometry, s: State, drv: nat, bno: nat, b: Block, getOk: bool): (a: Answer)
    requires Inv(g, s) && drv < NDRIVES
  {
    if bno >= Blocks(g, drv) then Answer(s, Failed)
    else
      TrackIsValid(g, drv, bno);
      var k := TrackOf(g, drv, bno);
      var s' := Found(g, s, k, true, getOk);
      FoundIsInFront(g, s, k, true, getOk);
      FoundKeepsInv(g, s, k, true, getOk);
      if Available(s, k, getOk) then
        assert SlotOk(g, s'.disk, s'.cache[0]);
        Answer(Stored(s', Sector(g, drv, bno), b), Done(b))
      else Answer(s', Failed)
  }

  /** The part of format before the write. */
  function Prepared(g: Geometry, s: State, drv: nat, bno: nat): (s': State)
    requires Inv(g, s) && drv < NDRIVES
    ensures Inv(g, s')
  {
    if bno < Blocks(g, drv) && Sector(g, drv, bno) == 0 then
      TrackIsValid(g, drv, bno);
      FoundKeepsInv(g, s, TrackOf(g, drv, bno), false, true);
      Found(g, s, TrackOf(g, drv, bno), false, true)
    else s
  }

  /** format */
  function Format(g: Geometry, s: State, drv: nat, bno: nat, b: Block, getOk: bool): (a: Answer)
    requires Inv(g, s) && drv < NDRIVES
  {
    Write(g, Prepared(g, s, drv, bno), drv, bno, b, getOk)
  }

  // ----- a plain disk, and what the operations do to it

  /** All that a reader sees. */
  function Contents(s: State): (d: Disk)
  {
    map k: Key | k in s.disk :: Logical(s, k)
  }

  datatype Effect = Put(k: Key, sec: nat, b: Block) | Clear(k: Key)

  function Applied(g: Geometry, d: Disk, e: Effect): (d': Disk)
  {
    match e
    case Put(k, sec, b) => if k in d && sec < |d[k]| then d[k := d[k][sec := b]] else d
    case Clear(k) => if k.drv < NDRIVES then d[k := Zeros(g[k.drv])] else d
  }

  function AllApplied(g: Geometry, d: Disk, es: seq<Effect>): (d': Disk)
  {
    if es == [] then d else Applied(g, AllApplied(g, d, es[..|es| - 1]), es[|es| - 1])
  }

  lemma FoundKeepsKeys(g: Geometry, s: State, k: Key, read: bool, getOk: bool)
    requires Inv(g, s) && Valid(k)
    ensures Found(g, s, k, read, getOk).disk.Keys == s.disk.Keys
  {
    assert SlotOk(g, s.disk, s.cache[TBCLEN - 1]);
  }

  /** Every key on the disks is that of a track. */
  ghost predicate OnlyTracks(s: State)
  {
    forall k: Key :: k in s.disk ==> Valid(k)
  }

  lemma ContentsAre(s: State, d: Disk)
    requires d.Keys == s.disk.Keys && forall k: Key :: k in s.disk ==> Logical(s, k) == d[k]
    ensures Contents(s) == d
  {
  }

  lemma ContentsAt(s: State)
    ensures Contents(s).Keys == s.disk.Keys && forall k: Key :: k in s.disk ==> Contents(s)[k] == Logical(s, k)
  {
  }

  lemma FoundKeepsContents(g: Geometry, s: State, k: Key, read: bool, getOk: bool)
    requires Inv(g, s) && OnlyTracks(s) && Valid(k)
    ensures var s' := Found(g, s, k, read, getOk);
            Inv(g, s') && OnlyTracks(s')
            && Contents(s') == if !read && !Cached(s, k) then Contents(s)[k := Zeros(g[k.drv])] else Contents(s)
  {
    var s' := Found(g, s, k, read, getOk);
    FoundKeepsInv(g, s, k, read, getOk);
    FoundKeepsKeys(g, s, k, read, getOk);
    ContentsAt(s);
    var d := if !read && !Cached(s, k) then Contents(s)[k := Zeros(g[k.drv])] else Contents(s);
    forall other: Key | other in s'.disk
      ensures Logical(s', other) == d[other]
    {
      FoundKeepsLogical(g, s, k, read, getOk, other);
    }
    assert d.Keys == s'.disk.Keys;
    ContentsAre(s', d);
  }

  lemma StoredKeepsInv(g: Geometry, s: State, sec: nat, b: Block)
    requires Inv(g, s) && s.cache[0].Held? && sec < |s.cache[0].data|
    ensures Inv(g, Stored(s, sec, b))
  {
    var s' := Stored(s, sec, b);
    forall i: nat | i < TBCLEN
      ensures SlotOk(g, s'.disk, s'.cache[i])
    {
      assert SlotOk(g, s.disk, s.cache[i]);
    }
  }

  lemma StoredLogical(g: Geometry, s: State, sec: nat, b: Block, k: Key)
    requires Inv(g, s) && s.cache[0].Held? && sec < |s.cache[0].data| && k in s.disk
    ensures Logical(Stored(s, sec, b), k) == if k == s.cache[0].key then s.cache[0].data[sec := b] else Logical(s, k)
  {
    var s' := Stored(s, sec, b);
    StoredKeepsInv(g, s, sec, b);
    var i := IndexOf(s.cache, k);
    if i < TBCLEN {
      assert Holds(s'.cache[i], k);
      LogicalIs(g, s', k, i);
      if k == s.cache[0].key {
        LogicalIs(g, s, k, 0);
      }
    } else {
      NotCached(s'.cache, k);
    }
  }

  lemma StoredContents(g: Geometry, s: State, sec: nat, b: Block)
    requires Inv(g, s) && OnlyTracks(s) && s.cache[0].Held? && sec < |s.cache[0].data|
    ensures var s' := Stored(s, sec, b);
            Inv(g, s') && OnlyTracks(s') && Contents(s') == Applied(g, Contents(s), Put(s.cache[0].key, sec, b))
  {
    var s', k0 := Stored(s, sec, b), s.cache[0].key;
    StoredKeepsInv(g, s, sec, b);
    assert SlotOk(g, s.disk, s.cache[0]);
    LogicalIs(g, s, k0, 0);
    ContentsAt(s);
    var d := Contents(s)[k0 := Contents(s)[k0][sec := b]];
    forall k: Key | k in s'.disk
      ensures Logical(s', k) == d[k]
    {
      StoredLogical(g, s, sec, b, k);
    }
    assert d.Keys == s'.disk.Keys;
    ContentsAre(s', d);
  }

  /** A read gives the block that is there, and changes nothing. */
  lemma ReadIsPlain(g: Geometry, s: State, drv: nat, bno: nat, getOk: bool)
    requires Inv(g, s) && OnlyTracks(s) && drv < NDRIVES
    ensures var a := Read(g, s, drv, bno, getOk);
            Inv(g, a.s) && OnlyTracks(a.s) && Contents(a.s) == Contents(s)
            && (a.result == End <==> bno == Blocks(g, drv))
            && (a.result.Done? <==> bno < Blocks(g, drv) && (Cached(s, TrackOf(g, drv, bno)) || getOk))
            && (a.result.Done? ==> bno < Blocks(g, drv) && Valid(TrackOf(g, drv, bno))
                                   && Sector(g, drv, bno) < |Contents(s)[TrackOf(g, drv, bno)]|
                                   && a.result.block == Contents(s)[TrackOf(g, drv, bno)][Sector(g, drv, bno)])
  {
    if bno < Blocks(g, drv) {
      TrackIsValid(g, drv, bno);
      var k := TrackOf(g, drv, bno);
      FoundKeepsContents(g, s, k, true, getOk);
      FoundIsInFront(g, s, k, true, getOk);
      var s' := Found(g, s, k, true, getOk);
      if Available(s, k, getOk) {
        assert SlotOk(g, s'.disk, s'.cache[0]);
        LogicalIs(g, s', k, 0);
        assert Contents(s')[k] == s'.cache[0].data;
      }
    }
  }

  /** A write that succeeds puts its block in its place and changes nothing else; one that fails changes
      nothing. */
  lemma WriteIsPlain(g: Geometry, s: State, drv: nat, bno: nat, b: Block, getOk: bool)
    requires Inv(g, s) && OnlyTracks(s) && drv < NDRIVES
    ensures var a := Write(g, s, drv, bno, b, getOk);
            Inv(g, a.s) && OnlyTracks(a.s)
            && a.result == (if bno < Blocks(g, drv) && (Cached(s, TrackOf(g, drv, bno)) || getOk) then Done(b) else Failed)
            && Contents(a.s) == if a.result.Done? then Applied(g, Contents(s), Put(TrackOf(g, drv, bno), Sector(g, drv, bno), b))
                                else Contents(s)
  {
    if bno < Blocks(g, drv) {
      TrackIsValid(g, drv, bno);
      var k := TrackOf(g, drv, bno);
      FoundKeepsContents(g, s, k, true, getOk);
      FoundIsInFront(g, s, k, true, getOk);
      var s' := Found(g, s, k, true, getOk);
      if Available(s, k, getOk) {
        assert SlotOk(g, s'.disk, s'.cache[0]);
        StoredContents(g, s', Sector(g, drv, bno), b);
      }
    }
  }

  /** Formatting a block clears its track first, but only if it is the first of the track and the track is not
      cached; then it is written like any other block. */
  lemma FormatIsPlain(g: Geometry, s: State, drv: nat, bno: nat, b: Block, getOk: bool)
    requires Inv(g, s) && OnlyTracks(s) && drv < NDRIVES
    ensures var a, k, sec := Format(g, s, drv, bno, b, getOk), TrackOf(g, drv, bno), Sector(g, drv, bno);
            var clears := bno < Blocks(g, drv) && sec == 0 && !Cached(s, k);
            var d := if clears then Applied(g, Contents(s), Clear(k)) else Contents(s);
            Inv(g, a.s) && OnlyTracks(a.s)
            && a.result == (if bno < Blocks(g, drv) && (Cached(s, k) || sec == 0 || getOk) then Done(b) else Failed)
            && Contents(a.s) == if a.result.Done? then Applied(g, d, Put(k, sec, b)) else d
  {
    var k := TrackOf(g, drv, bno);
    if bno < Blocks(g, drv) && Sector(g, drv, bno) == 0 {
      TrackIsValid(g, drv, bno);
      FoundKeepsContents(g, s, k, false, true);
      FoundIsInFront(g, s, k, false, true);
    }
    WriteIsPlain(g, Prepared(g, s, drv, bno), drv, bno, b, getOk);
  }

  // ----- flush

  lemma {:induction false} FlushedSlots(s: State, drv: nat, n: nat)
    requires n <= |s.cache|
    ensures forall i: nat :: i < |s.cache| ==>
              FlushedUpTo(s, drv, n).cache[i] == if i < n then FlushedSlot(s.cache[i], drv) else s.cache[i]
  {
    if n > 0 {
      FlushedSlots(s, drv, n - 1);
    }
  }

  /** The disk when the slots before number n have been flushed, as far as track k goes. */
  ghost predicate FlushedFor(s: State, drv: nat, n: nat, k: Key, d: Disk)
    requires k in s.disk
  {
    var i := IndexOf(s.cache, k);
    d.Keys == s.disk.Keys && d[k] == if i < n && i < |s.cache| && k.drv == drv then s.cache[i].data else s.disk[k]
  }

  lemma FlushedMore(g: Geometry, s: State, drv: nat, n: nat, k: Key, d: Disk)
    requires Inv(g, s) && n < TBCLEN && Valid(k) && FlushedFor(s, drv, n, k, d)
    ensures var slot := s.cache[n];
            FlushedFor(s, drv, n + 1, k, if slot.Held? && slot.key.drv == drv then Written(d, slot) else d)
  {
    var slot := s.cache[n];
    assert SlotOk(g, s.disk, slot);
    if Holds(slot, k) {
      LogicalIs(g, s, k, n);
    }
  }

  /** Tracks that are written are those of the drive, one slot at a time. */
  lemma {:induction false} FlushedDisk(g: Geometry, s: State, drv: nat, n: nat, k: Key)
    requires Inv(g, s) && n <= TBCLEN && Valid(k)
    ensures FlushedFor(s, drv, n, k, FlushedUpTo(s, drv, n).disk)
  {
    if n > 0 {
      FlushedDisk(g, s, drv, n - 1, k);
      FlushedSlots(s, drv, n - 1);
      FlushedMore(g, s, drv, n - 1, k, FlushedUpTo(s, drv, n - 1).disk);
    }
  }

  lemma FlushKeepsInv(g: Geometry, s: State, drv: nat)
    requires Inv(g, s)
    ensures Inv(g, Flushed(s, drv))
  {
    var s' := Flushed(s, drv);
    FlushedSlots(s, drv, TBCLEN);
    forall k: Key | Valid(k)
      ensures k in s'.disk && |s'.disk[k]| == g[k.drv]
    {
      FlushedDisk(g, s, drv, TBCLEN, k);
      var i := IndexOf(s.cache, k);
      assert i < TBCLEN ==> SlotOk(g, s.disk, s.cache[i]);
    }
    forall i: nat | i < TBCLEN
      ensures SlotOk(g, s'.disk, s'.cache[i])
    {
      assert SlotOk(g, s.disk, s.cache[i]);
      if s'.cache[i].Held? {
        FlushedDisk(g, s, drv, TBCLEN, s'.cache[i].key);
      }
    }
  }

  /** After a flush the drive has nothing in the cache, its disk is what a reader saw, and no reader sees any
      difference on any drive. */
  lemma FlushMakesPhysical(g: Geometry, s: State, drv: nat, k: Key)
    requires Inv(g, s) && Valid(k)
    ensures var s' := Flushed(s, drv);
            Inv(g, s') && k in s'.disk && Logical(s', k) == Logical(s, k)
            && (k.drv == drv ==> !Cached(s', k) && s'.disk[k] == Logical(s, k))
            && (k.drv != drv ==> s'.disk[k] == s.disk[k] && IndexOf(s'.cache, k) == IndexOf(s.cache, k))
  {
    var s' := Flushed(s, drv);
    FlushKeepsInv(g, s, drv);
    FlushedSlots(s, drv, TBCLEN);
    FlushedDisk(g, s, drv, TBCLEN, k);
    var i := IndexOf(s.cache, k);
    if k.drv == drv {
      NotCached(s'.cache, k);
    } else if i < TBCLEN {
      LogicalIs(g, s', k, i);
    } else {
      NotCached(s'.cache, k);
    }
  }

  lemma FlushIsPlain(g: Geometry, s: State, drv: nat)
    requires Inv(g, s) && OnlyTracks(s)
    ensures var s' := Flushed(s, drv); Inv(g, s') && OnlyTracks(s') && Contents(s') == Contents(s)
  {
    var s' := Flushed(s, drv);
    FlushKeepsInv(g, s, drv);
    FlushedDisk(g, s, drv, TBCLEN, Key(0, 0));
    ContentsAt(s);
    forall k: Key | k in s'.disk
      ensures Logical(s', k) == Contents(s)[k]
    {
      FlushMakesPhysical(g, s, drv, k);
    }
    ContentsAre(s', Contents(s));
  }

  // ----- whole runs

  datatype Op = DoRead(drv: nat, bno: nat, getOk: bool) | DoWrite(drv: nat, bno: nat, b: Block, getOk: bool)
              | DoFormat(drv: nat, bno: nat, b: Block, getOk: bool) | DoFlush(drv: nat)

  function Step(g: Geometry, s: State, op: Op): (s': State)
    requires Inv(g, s) && op.drv < NDRIVES
  {
    match op
    case DoRead(drv, bno, getOk) => Read(g, s, drv, bno, getOk).s
    case DoWrite(drv, bno, b, getOk) => Write(g, s, drv, bno, b, getOk).s
    case DoFormat(drv, bno, b, getOk) => Format(g, s, drv, bno, b, getOk).s
    case DoFlush(drv) => Flushed(s, drv)
  }

  /** What an operation does to a plain disk: what has been reported as done. */
  function Effects(g: Geometry, s: State, op: Op): (es: seq<Effect>)
    requires Inv(g, s) && op.drv < NDRIVES
  {
    match op
    case DoRead(_, _, _) => []
    case DoWrite(drv, bno, b, getOk) =>
      if Write(g, s, drv, bno, b, getOk).result.Done? then [Put(TrackOf(g, drv, bno), Sector(g, drv, bno), b)] else []
    case DoFormat(drv, bno, b, getOk) =>
      (if bno < Blocks(g, drv) && Sector(g, drv, bno) == 0 && !Cached(s, TrackOf(g, drv, bno)) then [Clear(TrackOf(g, drv, bno))]
       else [])
      + if Format(g, s, drv, bno, b, getOk).result.Done? then [Put(TrackOf(g, drv, bno), Sector(g, drv, bno), b)] else []
    case DoFlush(_) => []
  }

  lemma {:induction false} AppliedConcat(g: Geometry, d: Disk, a: seq<Effect>, b: seq<Effect>)
    ensures AllApplied(g, d, a + b) == AllApplied(g, AllApplied(g, d, a), b)
    decreases |b|
  {
    if b == [] {
      assert a + b == a;
    } else {
      assert (a + b)[..|a + b| - 1] == a + b[..|b| - 1];
      AppliedConcat(g, d, a, b[..|b| - 1]);
    }
  }

  lemma AppliedOne(g: Geometry, d: Disk, e: Effect)
    ensures AllApplied(g, d, [e]) == Applied(g, d, e)
  {
    assert [e][..0] == [];
  }

  lemma StepRefines(g: Geometry, s: State, op: Op)
    requires Inv(g, s) && OnlyTracks(s) && op.drv < NDRIVES
    ensures var s' := Step(g, s, op);
            Inv(g, s') && OnlyTracks(s') && Contents(s') == AllApplied(g, Contents(s), Effects(g, s, op))
  {
    match op
    case DoRead(drv, bno, getOk) => ReadIsPlain(g, s, drv, bno, getOk);
    case DoWrite(drv, bno, b, getOk) =>
      WriteIsPlain(g, s, drv, bno, b, getOk);
      AppliedOne(g, Contents(s), Put(TrackOf(g, drv, bno), Sector(g, drv, bno), b));
    case DoFormat(drv, bno, b, getOk) => FormatRefines(g, s, drv, bno, b, getOk);
    case DoFlush(drv) => FlushIsPlain(g, s, drv);
  }

  lemma FormatRefines(g: Geometry, s: State, drv: nat, bno: nat, b: Block, getOk: bool)
    requires Inv(g, s) && OnlyTracks(s) && drv < NDRIVES
    ensures var op := DoFormat(drv, bno, b, getOk);
            Inv(g, Step(g, s, op)) && OnlyTracks(Step(g, s, op))
            && Contents(Step(g, s, op)) == AllApplied(g, Contents(s), Effects(g, s, op))
  {
    var k, sec := TrackOf(g, drv, bno), Sector(g, drv, bno);
    var clears := bno < Blocks(g, drv) && sec == 0 && !Cached(s, k);
    FormatIsPlain(g, s, drv, bno, b, getOk);
    AppliedBoth(g, Contents(s), k, clears, Put(k, sec, b), Format(g, s, drv, bno, b, getOk).result.Done?);
  }

  lemma AppliedBoth(g: Geometry, d: Disk, k: Key, clears: bool, put: Effect, done: bool)
    ensures var d' := if clears then Applied(g, d, Clear(k)) else d;
            AllApplied(g, d, (if clears then [Clear(k)] else []) + if done then [put] else [])
            == if done then Applied(g, d', put) else d'
  {
    var es := if clears then [Clear(k)] else [];
    AppliedOne(g, d, Clear(k));
    var d' := AllApplied(g, d, es);
    if done {
      AppliedOne(g, d', put);
      AppliedConcat(g, d, es, [put]);
    } else {
      assert es + [] == es;
    }
  }

  function RunOf(g: Geometry, s: State, ops: seq<Op>): (s': State)
    requires Inv(g, s) && OnlyTracks(s) && forall i: nat :: i < |ops| ==> ops[i].drv < NDRIVES
    ensures Inv(g, s') && OnlyTracks(s')
  {
    if ops == [] then s
    else
      var s1 := RunOf(g, s, ops[..|ops| - 1]);
      StepRefines(g, s1, ops[|ops| - 1]);
      Step(g, s1, ops[|ops| - 1])
  }

  function RunEffects(g: Geometry, s: State, ops: seq<Op>): (es: seq<Effect>)
    requires Inv(g, s) && OnlyTracks(s) && forall i: nat :: i < |ops| ==> ops[i].drv < NDRIVES
  {
    if ops == [] then []
    else RunEffects(g, s, ops[..|ops| - 1]) + Effects(g, RunOf(g, s, ops[..|ops| - 1]), ops[|ops| - 1])
  }

  /** After any run, cache over disk is what a plain disk would be that everything had been applied to. */
  lemma {:induction false} RunRefines(g: Geometry, s: State, ops: seq<Op>)
    requires Inv(g, s) && OnlyTracks(s) && forall i: nat :: i < |ops| ==> ops[i].drv < NDRIVES
    ensures Contents(RunOf(g, s, ops)) == AllApplied(g, Contents(s), RunEffects(g, s, ops))
    decreases |ops|
  {
    if ops != [] {
      var before := ops[..|ops| - 1];
      RunRefines(g, s, before);
      StepRefines(g, RunOf(g, s, before), ops[|ops| - 1]);
      AppliedConcat(g, Contents(s), RunEffects(g, s, before), Effects(g, RunOf(g, s, before), ops[|ops| - 1]));
    }
  }

  /** And then flushing a drive leaves just that on its physical disk. */
  lemma FlushAfterRun(g: Geometry, s: State, ops: seq<Op>, drv: nat, k: Key)
    requires Inv(g, s) && OnlyTracks(s) && forall i: nat :: i < |ops| ==> ops[i].drv < NDRIVES
    requires Valid(k) && k.drv == drv
    ensures var d := AllApplied(g, Contents(s), RunEffects(g, s, ops));
            k in Flushed(RunOf(g, s, ops), drv).disk && k in d && Flushed(RunOf(g, s, ops), drv).disk[k] == d[k]
  {
    RunRefines(g, s, ops);
    ContentsAt(RunOf(g, s, ops));
    FlushMakesPhysical(g, RunOf(g, s, ops), drv, k);
  }

  // ----- the track that gives way is the one used longest ago

  /** When a track was last found, counting from 1; 0 if it never was. */
  function LastUse(uses: seq<Key>, k: Key): (t: nat)
    ensures t <= |uses|
  {
    if uses == [] then 0 else if uses[|uses| - 1] == k then |uses| else LastUse(uses[..|uses| - 1], k)
  }

  ghost predicate InOrder(cache: seq<Slot>, uses: seq<Key>)
  {
    && (forall i: nat :: i < |cache| && cache[i].Held? ==> LastUse(uses, cache[i].key) > 0)
    && (forall i: nat, j: nat :: i < j < |cache| && cache[i].Held? && cache[j].Held? ==>
          LastUse(uses, cache[i].key) > LastUse(uses, cache[j].key))
  }

  lemma UsedNow(uses: seq<Key>, k: Key, other: Key)
    ensures LastUse(uses + [k], other) == if other == k then |uses| + 1 else LastUse(uses, other)
  {
    assert (uses + [k])[..|uses|] == uses;
  }

  function FoundUses(s: State, k: Key, read: bool, getOk: bool): (uses: seq<Key>)
  {
    if Cached(s, k) || !read || getOk then [k] else []
  }

  lemma HitUse(g: Geometry, s: State, i: nat, uses: seq<Key>, a: nat)
    requires Inv(g, s) && i < TBCLEN && s.cache[i].Held? && a < TBCLEN && ToFront(s.cache, i)[a].Held?
    ensures ToFront(s.cache, i)[a] == s.cache[Earlier(i, a)]
    ensures LastUse(uses + [s.cache[i].key], ToFront(s.cache, i)[a].key)
            == if a == 0 then |uses| + 1 else LastUse(uses, s.cache[Earlier(i, a)].key)
  {
    ToFrontMoves(s.cache, i);
    var e := Earlier(i, a);
    UsedNow(uses, s.cache[i].key, s.cache[e].key);
    if e < i {
      assert !Holds(s.cache[i], s.cache[e].key);
    } else if e > i {
      assert !Holds(s.cache[e], s.cache[i].key);
    }
  }

  lemma HitKeepsOrder(g: Geometry, s: State, i: nat, uses: seq<Key>)
    requires Inv(g, s) && i < TBCLEN && s.cache[i].Held? && InOrder(s.cache, uses)
    ensures InOrder(ToFront(s.cache, i), uses + [s.cache[i].key])
  {
    var c, u := ToFront(s.cache, i), uses + [s.cache[i].key];
    forall a: nat | a < TBCLEN && c[a].Held?
      ensures LastUse(u, c[a].key) > 0
    {
      HitUse(g, s, i, uses, a);
    }
    forall a: nat, b: nat | a < b < TBCLEN && c[a].Held? && c[b].Held?
      ensures LastUse(u, c[a].key) > LastUse(u, c[b].key)
    {
      HitUse(g, s, i, uses, a);
      HitUse(g, s, i, uses, b);
    }
  }

  lemma EvictKeepsOrder(s: State, slot: Slot, uses: seq<Key>)
    requires |s.cache| == TBCLEN && InOrder(s.cache, uses) && (slot.Held? ==> !Cached(s, slot.key))
    ensures InOrder(Evicted(s, slot).cache, uses + if slot.Held? then [slot.key] else [])
  {
    var c := Evicted(s, slot).cache;
    if slot.Held? {
      forall a: nat | 0 < a < TBCLEN && c[a].Held?
        ensures LastUse(uses + [slot.key], c[a].key) == LastUse(uses, s.cache[a - 1].key)
      {
        assert c[a] == s.cache[a - 1] && !Holds(s.cache[a - 1], slot.key);
        UsedNow(uses, slot.key, c[a].key);
      }
      UsedNow(uses, slot.key, slot.key);
    } else {
      assert uses + [] == uses;
    }
    forall a: nat, b: nat | a < b < TBCLEN && c[a].Held? && c[b].Held?
      ensures var u := uses + if slot.Held? then [slot.key] else []; LastUse(u, c[a].key) > LastUse(u, c[b].key)
    {
      assert c[b] == s.cache[b - 1] && (a > 0 ==> c[a] == s.cache[a - 1]);
    }
  }

  lemma FoundKeepsOrder(g: Geometry, s: State, k: Key, read: bool, getOk: bool, uses: seq<Key>)
    requires Inv(g, s) && Valid(k) && InOrder(s.cache, uses)
    ensures InOrder(Found(g, s, k, read, getOk).cache, uses + FoundUses(s, k, read, getOk))
  {
    var i := IndexOf(s.cache, k);
    if i < TBCLEN {
      HitKeepsOrder(g, s, i, uses);
    } else {
      assert SlotOk(g, s.disk, s.cache[TBCLEN - 1]);
      EvictKeepsOrder(s, NewSlot(g, Written(s.disk, s.cache[TBCLEN - 1]), k, read, getOk), uses);
    }
  }

  /** The tracks that an operation finds. */
  function StepUses(g: Geometry, s: State, op: Op): (uses: seq<Key>)
    requires Inv(g, s) && op.drv < NDRIVES
  {
    match op
    case DoRead(drv, bno, getOk) =>
      if bno < Blocks(g, drv) then FoundUses(s, TrackOf(g, drv, bno), true, getOk) else []
    case DoWrite(drv, bno, _, getOk) =>
      if bno < Blocks(g, drv) then FoundUses(s, TrackOf(g, drv, bno), true, getOk) else []
    case DoFormat(drv, bno, _, getOk) =>
      if bno < Blocks(g, drv) then
        (if Sector(g, drv, bno) == 0 then FoundUses(s, TrackOf(g, drv, bno), false, true) else [])
        + FoundUses(Prepared(g, s, drv, bno), TrackOf(g, drv, bno), true, getOk)
      else []
    case DoFlush(_) => []
  }

  lemma WriteKeepsOrder(g: Geometry, s: State, drv: nat, bno: nat, b: Block, getOk: bool, uses: seq<Key>)
    requires Inv(g, s) && drv < NDRIVES && InOrder(s.cache, uses) && bno < Blocks(g, drv)
    ensures InOrder(Write(g, s, drv, bno, b, getOk).s.cache, uses + FoundUses(s, TrackOf(g, drv, bno), true, getOk))
  {
    TrackIsValid(g, drv, bno);
    FoundKeepsOrder(g, s, TrackOf(g, drv, bno), true, getOk, uses);
  }

  lemma FormatKeepsOrder(g: Geometry, s: State, drv: nat, bno: nat, b: Block, getOk: bool, uses: seq<Key>)
    requires Inv(g, s) && drv < NDRIVES && InOrder(s.cache, uses) && bno < Blocks(g, drv)
    ensures InOrder(Format(g, s, drv, bno, b, getOk).s.cache, uses + StepUses(g, s, DoFormat(drv, bno, b, getOk)))
  {
    var k := TrackOf(g, drv, bno);
    TrackIsValid(g, drv, bno);
    FoundKeepsOrder(g, s, k, false, true, uses);
    var first := if Sector(g, drv, bno) == 0 then FoundUses(s, k, false, true) else [];
    assert uses + [] == uses;
    WriteKeepsOrder(g, Prepared(g, s, drv, bno), drv, bno, b, getOk, uses + first);
    Regroup(uses, first, FoundUses(Prepared(g, s, drv, bno), k, true, getOk));
  }

  lemma Regroup(a: seq<Key>, b: seq<Key>, c: seq<Key>)
    ensures a + b + c == a + (b + c)
  {
  }

  lemma StepKeepsOrder(g: Geometry, s: State, op: Op, uses: seq<Key>)
    requires Inv(g, s) && op.drv < NDRIVES && InOrder(s.cache, uses)
    ensures InOrder(Step(g, s, op).cache, uses + StepUses(g, s, op))
  {
    assert uses + [] == uses;
    match op
    case DoRead(drv, bno, getOk) =>
      if bno < Blocks(g, drv) {
        TrackIsValid(g, drv, bno);
        FoundKeepsOrder(g, s, TrackOf(g, drv, bno), true, getOk, uses);
      }
    case DoWrite(drv, bno, b, getOk) =>
      if bno < Blocks(g, drv) {
        WriteKeepsOrder(g, s, drv, bno, b, getOk, uses);
      }
    case DoFormat(drv, bno, b, getOk) =>
      if bno < Blocks(g, drv) {
        FormatKeepsOrder(g, s, drv, bno, b, getOk, uses);
      }
    case DoFlush(drv) => FlushedSlots(s, drv, TBCLEN);
  }

  function RunUses(g: Geometry, s: State, ops: seq<Op>): (uses: seq<Key>)
    requires Inv(g, s) && OnlyTracks(s) && forall i: nat :: i < |ops| ==> ops[i].drv < NDRIVES
  {
    if ops == [] then []
    else RunUses(g, s, ops[..|ops| - 1]) + StepUses(g, RunOf(g, s, ops[..|ops| - 1]), ops[|ops| - 1])
  }

  lemma {:induction false} RunKeepsOrder(g: Geometry, s: State, ops: seq<Op>)
    requires Inv(g, s) && OnlyTracks(s) && forall i: nat :: i < |ops| ==> ops[i].drv < NDRIVES
    requires forall i: nat :: i < TBCLEN ==> s.cache[i] == Free
    ensures InOrder(RunOf(g, s, ops).cache, RunUses(g, s, ops))
    decreases |ops|
  {
    if ops != [] {
      RunKeepsOrder(g, s, ops[..|ops| - 1]);
      StepKeepsOrder(g, RunOf(g, s, ops[..|ops| - 1]), ops[|ops| - 1], RunUses(g, s, ops[..|ops| - 1]));
    }
  }

  /** After any run from an empty cache, the track that findtrk will put out is the one that was found longest
      ago of all that are cached. */
  lemma EvictsLeastRecent(g: Geometry, s: State, ops: seq<Op>, i: nat)
    requires Inv(g, s) && OnlyTracks(s) && forall i: nat :: i < |ops| ==> ops[i].drv < NDRIVES
    requires forall i: nat :: i < TBCLEN ==> s.cache[i] == Free
    requires i < TBCLEN - 1 && RunOf(g, s, ops).cache[i].Held? && RunOf(g, s, ops).cache[TBCLEN - 1].Held?
    ensures var c, uses := RunOf(g, s, ops).cache, RunUses(g, s, ops);
            0 < LastUse(uses, c[TBCLEN - 1].key) < LastUse(uses, c[i].key)
  {
    RunKeepsOrder(g, s, ops);
  }

  // ----- the cache holds what has been used most recently

  /** Tracks are in front, and one that has been used and is not cached was used before all that are. */
  ghost predicate Recent(cache: seq<Slot>, uses: seq<Key>)
  {
    && (forall i: nat, j: nat :: j < i < |cache| && cache[i].Held? ==> cache[j].Held?)
    && (forall k: Key, i: nat :: i < |cache| && LastUse(uses, k) > 0 && IndexOf(cache, k) == |cache| ==>
          cache[i].Held? && LastUse(uses, cache[i].key) > LastUse(uses, k))
  }

  lemma ToFrontIndex(cache: seq<Slot>, i: nat, k: Key)
    requires i < |cache|
    ensures IndexOf(ToFront(cache, i), k) == |cache| <==> IndexOf(cache, k) == |cache|
  {
    ToFrontMoves(cache, i);
    var a, b := IndexOf(cache, k), IndexOf(ToFront(cache, i), k);
    assert a < |cache| ==> Holds(ToFront(cache, i)[Later(i, a)], k);
    assert b < |cache| ==> Holds(cache[Earlier(i, b)], k);
  }

  lemma HitKeepsRecent(g: Geometry, s: State, i: nat, uses: seq<Key>)
    requires Inv(g, s) && i < TBCLEN && s.cache[i].Held? && Recent(s.cache, uses)
    ensures Recent(ToFront(s.cache, i), uses + [s.cache[i].key])
  {
    var c, u := ToFront(s.cache, i), uses + [s.cache[i].key];
    ToFrontMoves(s.cache, i);
    forall k: Key, j: nat | j < TBCLEN && LastUse(u, k) > 0 && IndexOf(c, k) == TBCLEN
      ensures c[j].Held? && LastUse(u, c[j].key) > LastUse(u, k)
    {
      ToFrontIndex(s.cache, i, k);
      assert k != s.cache[i].key;
      UsedNow(uses, s.cache[i].key, k);
      assert s.cache[Earlier(i, j)].Held?;
      HitUse(g, s, i, uses, j);
    }
  }

  lemma EvictedIndex(s: State, slot: Slot, k: Key)
    requires |s.cache| == TBCLEN
    ensures IndexOf(Evicted(s, slot).cache, k) == TBCLEN ==>
              !Holds(slot, k) && (IndexOf(s.cache, k) == TBCLEN || IndexOf(s.cache, k) == TBCLEN - 1)
  {
    var c, i := Evicted(s, slot).cache, IndexOf(s.cache, k);
    assert i < TBCLEN - 1 ==> Holds(c[i + 1], k);
    assert c[0] == slot;
  }

  lemma EvictKeepsRecent(s: State, slot: Slot, uses: seq<Key>)
    requires |s.cache| == TBCLEN && InOrder(s.cache, uses) && Recent(s.cache, uses) && slot.Held? && !Cached(s, slot.key)
    ensures Recent(Evicted(s, slot).cache, uses + [slot.key])
  {
    var c, u := Evicted(s, slot).cache, uses + [slot.key];
    forall k: Key, j: nat | j < TBCLEN && LastUse(u, k) > 0 && IndexOf(c, k) == TBCLEN
      ensures c[j].Held? && LastUse(u, c[j].key) > LastUse(u, k)
    {
      EvictedIndex(s, slot, k);
      UsedNow(uses, slot.key, k);
      UsedNow(uses, slot.key, c[j].key);
      if j > 0 {
        assert c[j] == s.cache[j - 1];
        assert s.cache[j - 1].Held? && LastUse(uses, s.cache[j - 1].key) > LastUse(uses, k);
      }
    }
  }

  lemma FoundKeepsRecent(g: Geometry, s: State, k: Key, read: bool, uses: seq<Key>)
    requires Inv(g, s) && Valid(k) && InOrder(s.cache, uses) && Recent(s.cache, uses)
    ensures Recent(Found(g, s, k, read, true).cache, uses + FoundUses(s, k, read, true))
    ensures InOrder(Found(g, s, k, read, true).cache, uses + FoundUses(s, k, read, true))
  {
    FoundKeepsOrder(g, s, k, read, true, uses);
    var i := IndexOf(s.cache, k);
    if i < TBCLEN {
      HitKeepsRecent(g, s, i, uses);
    } else {
      assert SlotOk(g, s.disk, s.cache[TBCLEN - 1]);
      EvictKeepsRecent(s, NewSlot(g, Written(s.disk, s.cache[TBCLEN - 1]), k, read, true), uses);
    }
  }

  /** Storing a block leaves the tracks where they are. */
  lemma StoredKeepsRecent(g: Geometry, s: State, drv: nat, bno: nat, b: Block, uses: seq<Key>)
    requires Inv(g, s) && drv < NDRIVES && InOrder(s.cache, uses) && Recent(s.cache, uses) && bno < Blocks(g, drv)
    ensures var u := uses + FoundUses(s, TrackOf(g, drv, bno), true, true);
            InOrder(Write(g, s, drv, bno, b, true).s.cache, u) && Recent(Write(g, s, drv, bno, b, true).s.cache, u)
  {
    var k := TrackOf(g, drv, bno);
    TrackIsValid(g, drv, bno);
    WriteKeepsOrder(g, s, drv, bno, b, true, uses);
    FoundKeepsRecent(g, s, k, true, uses);
    FoundIsInFront(g, s, k, true, true);
    FoundKeepsInv(g, s, k, true, true);
    var s1 := Found(g, s, k, true, true);
    assert SlotOk(g, s1.disk, s1.cache[0]);
    SameKeys(s1.cache, Stored(s1, Sector(g, drv, bno), b).cache, uses + FoundUses(s, k, true, true));
  }

  lemma SameKeys(a: seq<Slot>, b: seq<Slot>, uses: seq<Key>)
    requires |a| == |b| && Recent(a, uses)
    requires forall i: nat :: i < |a| ==> a[i].Held? == b[i].Held? && (a[i].Held? ==> b[i].key == a[i].key)
    ensures Recent(b, uses)
  {
    forall k: Key, i: nat | i < |b| && LastUse(uses, k) > 0 && IndexOf(b, k) == |b|
      ensures b[i].Held? && LastUse(uses, b[i].key) > LastUse(uses, k)
    {
      var j := IndexOf(a, k);
      assert j < |a| ==> Holds(b[j], k);
      assert a[i].Held?;
    }
  }

  /** An operation that neither fails to read a track nor empties the cache. */
  predicate Undisturbed(op: Op)
  {
    !op.DoFlush? && op.getOk
  }

  lemma FormatKeepsRecent(g: Geometry, s: State, drv: nat, bno: nat, b: Block, uses: seq<Key>)
    requires Inv(g, s) && drv < NDRIVES && InOrder(s.cache, uses) && Recent(s.cache, uses) && bno < Blocks(g, drv)
    ensures Recent(Format(g, s, drv, bno, b, true).s.cache, uses + StepUses(g, s, DoFormat(drv, bno, b, true)))
  {
    var k := TrackOf(g, drv, bno);
    var first := if Sector(g, drv, bno) == 0 then FoundUses(s, k, false, true) else [];
    PreparedKeepsRecent(g, s, drv, bno, uses, first);
    var s1 := Prepared(g, s, drv, bno);
    var then' := FoundUses(s1, k, true, true);
    StoredKeepsRecent(g, s1, drv, bno, b, uses + first);
    Regroup(uses, first, then');
    assert StepUses(g, s, DoFormat(drv, bno, b, true)) == first + then';
  }

  lemma PreparedKeepsRecent(g: Geometry, s: State, drv: nat, bno: nat, uses: seq<Key>, first: seq<Key>)
    requires Inv(g, s) && drv < NDRIVES && InOrder(s.cache, uses) && Recent(s.cache, uses) && bno < Blocks(g, drv)
    requires first == if Sector(g, drv, bno) == 0 then FoundUses(s, TrackOf(g, drv, bno), false, true) else []
    ensures InOrder(Prepared(g, s, drv, bno).cache, uses + first) && Recent(Prepared(g, s, drv, bno).cache, uses + first)
  {
    TrackIsValid(g, drv, bno);
    FoundKeepsRecent(g, s, TrackOf(g, drv, bno), false, uses);
    assert uses + [] == uses;
  }

  lemma StepKeepsRecent(g: Geometry, s: State, op: Op, uses: seq<Key>)
    requires Inv(g, s) && op.drv < NDRIVES && InOrder(s.cache, uses) && Recent(s.cache, uses) && Undisturbed(op)
    ensures Recent(Step(g, s, op).cache, uses + StepUses(g, s, op))
  {
    assert uses + [] == uses;
    match op
    case DoRead(drv, bno, _) =>
      if bno < Blocks(g, drv) {
        TrackIsValid(g, drv, bno);
        FoundKeepsRecent(g, s, TrackOf(g, drv, bno), true, uses);
      }
    case DoWrite(drv, bno, b, _) =>
      if bno < Blocks(g, drv) {
        StoredKeepsRecent(g, s, drv, bno, b, uses);
      }
    case DoFormat(drv, bno, b, _) =>
      if bno < Blocks(g, drv) {
        FormatKeepsRecent(g, s, drv, bno, b, uses);
      }
    case DoFlush(_) =>
  }

  /** As long as tracks can be read and nothing is flushed, the cache holds the tracks used most recently: a track that
      has been used and is no longer cached was used before every one of those that are, and there are as many of
      them as there is room for. */
  lemma {:induction false} HoldsMostRecent(g: Geometry, s: State, ops: seq<Op>)
    requires Inv(g, s) && OnlyTracks(s) && forall i: nat :: i < TBCLEN ==> s.cache[i] == Free
    requires forall i: nat :: i < |ops| ==> ops[i].drv < NDRIVES && Undisturbed(ops[i])
    ensures Recent(RunOf(g, s, ops).cache, RunUses(g, s, ops))
    decreases |ops|
  {
    if ops != [] {
      var front, op := ops[..|ops| - 1], ops[|ops| - 1];
      HoldsMostRecent(g, s, front);
      RunKeepsOrder(g, s, front);
      StepKeepsRecent(g, RunOf(g, s, front), op, RunUses(g, s, front));
    }
  }

  // ----- formatting a whole track

  /** The number of a track's block n. */
  function BlockOf(g: Geometry, k: Key, n: nat): (bno: nat)
    requires Valid(k)
  {
    (if g[k.drv] == 9 then 9 * k.trk else if g[k.drv] == 11 then 11 * k.trk else 18 * k.trk) + n
  }

  lemma BlockOfTrack(g: Geometry, k: Key, n: nat)
    requires Valid(k) && n < g[k.drv]
    ensures var bno := BlockOf(g, k, n);
            bno < Blocks(g, k.drv) && TrackOf(g, k.drv, bno) == k && Sector(g, k.drv, bno) == n
  {
  }

  /** The first n blocks of a track formatted, in order. */
  function Formatted(g: Geometry, s: State, k: Key, blocks: seq<Block>, n: nat): (s': State)
    requires Inv(g, s) && OnlyTracks(s) && Valid(k) && n <= |blocks|
    ensures Inv(g, s') && OnlyTracks(s')
  {
    if n == 0 then s
    else
      var s1 := Formatted(g, s, k, blocks, n - 1);
      FormatIsPlain(g, s1, k.drv, BlockOf(g, k, n - 1), blocks[n - 1], false);
      Format(g, s1, k.drv, BlockOf(g, k, n - 1), blocks[n - 1], false).s
  }

  lemma LogicalSize(g: Geometry, s: State, k: Key)
    requires Inv(g, s) && Valid(k)
    ensures k in Contents(s) && |Contents(s)[k]| == g[k.drv]
  {
    var i := IndexOf(s.cache, k);
    assert i < TBCLEN ==> SlotOk(g, s.disk, s.cache[i]);
  }

  /** A block formatted while its track is in front, or as the first of its track, cannot fail. */
  lemma FormatSucceeds(g: Geometry, s: State, k: Key, n: nat, b: Block)
    requires Inv(g, s) && OnlyTracks(s) && Valid(k) && n < g[k.drv] && (n > 0 ==> Holds(s.cache[0], k))
    ensures var a := Format(g, s, k.drv, BlockOf(g, k, n), b, false); a.result.Done? && Holds(a.s.cache[0], k)
  {
    var bno := BlockOf(g, k, n);
    BlockOfTrack(g, k, n);
    FoundIsInFront(g, s, k, false, true);
    var s1 := Prepared(g, s, k.drv, bno);
    assert Holds(s1.cache[0], k);
    assert IndexOf(s1.cache, k) == 0;
    FoundIsInFront(g, s1, k, true, false);
  }

  /** What a block does to a plain disk, after the track has perhaps been cleared. */
  lemma PutIs(g: Geometry, d: Disk, k: Key, n: nat, b: Block, clears: bool, other: Key)
    requires Valid(k) && k in d && other in d && |d[k]| == g[k.drv] && n < g[k.drv]
    ensures var d' := Applied(g, if clears then Applied(g, d, Clear(k)) else d, Put(k, n, b));
            other in d' && (other != k ==> d'[other] == d[other])
            && k in d' && |d'[k]| == g[k.drv] && d'[k][n] == b && (!clears ==> d'[k][..n] == d[k][..n])
  {
  }

  /** The track `other`, after block n of track k has been formatted. */
  lemma FormattedOne(g: Geometry, s: State, k: Key, n: nat, b: Block, other: Key)
    requires Inv(g, s) && OnlyTracks(s) && Valid(k) && Valid(other) && n < g[k.drv] && (n > 0 ==> Holds(s.cache[0], k))
    ensures var d, d' := Contents(s), Contents(Format(g, s, k.drv, BlockOf(g, k, n), b, false).s);
            other in d && other in d' && (other != k ==> d'[other] == d[other])
            && k in d && k in d' && |d'[k]| == |d[k]| == g[k.drv] && d'[k][n] == b && (n > 0 ==> d'[k][..n] == d[k][..n])
  {
    BlockOfTrack(g, k, n);
    FormatIsPlain(g, s, k.drv, BlockOf(g, k, n), b, false);
    FormatSucceeds(g, s, k, n, b);
    LogicalSize(g, s, k);
    LogicalSize(g, s, other);
    PutIs(g, Contents(s), k, n, b, n == 0 && !Cached(s, k), other);
  }

  /** A track formatted block by block is what was asked for, whether it was cached or not and although its disk
      cannot be read; and no other track is touched. */
  lemma {:induction false} FormattedTrack(g: Geometry, s: State, k: Key, blocks: seq<Block>, n: nat, other: Key)
    requires Inv(g, s) && OnlyTracks(s) && Valid(k) && Valid(other) && n <= |blocks| == g[k.drv]
    ensures var s' := Formatted(g, s, k, blocks, n);
            (n > 0 ==> Holds(s'.cache[0], k))
            && k in Contents(s') && |Contents(s')[k]| == g[k.drv] && Contents(s')[k][..n] == blocks[..n]
            && other in Contents(s) && other in Contents(s') && (other != k ==> Contents(s')[other] == Contents(s)[other])
  {
    var s' := Formatted(g, s, k, blocks, n);
    LogicalSize(g, s', k);
    LogicalSize(g, s', other);
    LogicalSize(g, s, other);
    if n > 0 {
      var s1 := Formatted(g, s, k, blocks, n - 1);
      FormattedTrack(g, s, k, blocks, n - 1, other);
      FormatSucceeds(g, s1, k, n - 1, blocks[n - 1]);
      FormattedOne(g, s1, k, n - 1, blocks[n - 1], other);
      LongerPrefix(Contents(s')[k], blocks, n);
    }
  }

  lemma LongerPrefix(a: seq<Block>, b: seq<Block>, n: nat)
    requires 0 < n <= |a| && n <= |b| && a[n - 1] == b[n - 1] && a[..n - 1] == b[..n - 1]
    ensures a[..n] == b[..n]
  {
    assert a[..n] == a[..n - 1] + [a[n - 1]] && b[..n] == b[..n - 1] + [b[n - 1]];
  }

  // ----- the order of requests

  datatype Request = Request(drv: nat, bno: nat, count: nat, tag: nat)

  /** The track on which a request begins. */
  function Begins(g: Geometry, r: Request): (k: Key)
    requires r.drv < NDRIVES
  {
    TrackOf(g, r.drv, r.bno)
  }

  ghost predicate OnDrives(queue: seq<Request>)
  {
    forall i: nat :: i < |queue| ==> queue[i].drv < NDRIVES
  }

  /** getnext's choice: the first request that begins on a cached track, or else the first. */
  function Choice(g: Geometry, s: State, queue: seq<Request>): (i: nat)
    requires queue != [] && OnDrives(queue)
    ensures i < |queue|
    ensures Cached(s, Begins(g, queue[i])) || i == 0
    ensures forall j: nat :: j < i ==> !Cached(s, Begins(g, queue[j]))
  {
    var i := FirstCached(g, s, queue);
    if i < |queue| then i else 0
  }

  function FirstCached(g: Geometry, s: State, queue: seq<Request>): (i: nat)
    requires OnDrives(queue)
    ensures i <= |queue|
    ensures i < |queue| ==> Cached(s, Begins(g, queue[i]))
    ensures forall j: nat :: j < i ==> !Cached(s, Begins(g, queue[j]))
  {
    if queue == [] || Cached(s, Begins(g, queue[0])) then 0
    else
      var i := FirstCached(g, s, queue[1..]);
      assert forall j: nat :: 0 < j < i + 1 ==> queue[j] == queue[1..][j - 1];
      i + 1
  }

  /** No request overtakes one that begins on the same track. */
  lemma SameTrackInOrder(g: Geometry, s: State, queue: seq<Request>, j: nat)
    requires queue != [] && OnDrives(queue) && j < Choice(g, s, queue)
    ensures Begins(g, queue[j]) != Begins(g, queue[Choice(g, s, queue)])
  {
  }

  /** Blocks that two requests have in common. */
  predicate Overlap(a: Request, b: Request)
  {
    a.drv == b.drv && a.bno < b.bno + b.count && b.bno < a.bno + a.count
  }

  /** Requests of one block each that overlap are taken in the order in which they came. */
  lemma SingleBlocksInOrder(g: Geometry, s: State, queue: seq<Request>, j: nat)
    requires queue != [] && OnDrives(queue) && j < Choice(g, s, queue)
    requires queue[j].count == 1 && queue[Choice(g, s, queue)].count == 1
    ensures !Overlap(queue[j], queue[Choice(g, s, queue)])
  {
    SameTrackInOrder(g, s, queue, j);
  }

  /** A request that can be put in front of another that came before it: in some state that the cache can be in,
      at some moment of some queue. */
  ghost predicate CanOvertake(g: Geometry, b: Request, a: Request)
  {
    exists s: State, queue: seq<Request>, i: nat, j: nat ::
      Inv(g, s) && OnlyTracks(s) && OnDrives(queue) && Overtakes(g, s, queue, i, j) && queue[i] == a && queue[j] == b
  }

  ghost predicate Overtakes(g: Geometry, s: State, queue: seq<Request>, i: nat, j: nat)
    requires OnDrives(queue)
  {
    i < j < |queue| && Choice(g, s, queue) == j
  }

  /** In a given state: the first of two is overtaken if and only if only the other's first track is cached. */
  lemma OvertakenNow(g: Geometry, s: State, a: Request, b: Request)
    requires a.drv < NDRIVES && b.drv < NDRIVES
    ensures OnDrives([a, b])
    ensures Choice(g, s, [a, b]) == 1 <==> Cached(s, Begins(g, b)) && !Cached(s, Begins(g, a))
  {
    var q := [a, b];
    assert q[0] == a && q[1] == b;
    assert q[1..] == [b] && [b][1..] == [];
  }

  /** In any state: one request can overtake another if and only if it begins on a different track, which the
      drive has.  That they overlap makes no difference. */
  lemma OvertakesIff(g: Geometry, a: Request, b: Request)
    requires a.drv < NDRIVES && b.drv < NDRIVES
    ensures CanOvertake(g, b, a) <==> Begins(g, a) != Begins(g, b) && Valid(Begins(g, b))
  {
    if CanOvertake(g, b, a) {
      var s: State, queue: seq<Request>, i: nat, j: nat :|
        Inv(g, s) && OnlyTracks(s) && OnDrives(queue) && Overtakes(g, s, queue, i, j) && queue[i] == a && queue[j] == b;
      assert SlotOk(g, s.disk, s.cache[IndexOf(s.cache, Begins(g, b))]);
    }
    if Begins(g, a) != Begins(g, b) && Valid(Begins(g, b)) {
      var s := OneCached(g, Begins(g, b));
      OneIsCached(g, Begins(g, b), Begins(g, a));
      OvertakenNow(g, s, a, b);
      assert Overtakes(g, s, [a, b], 0, 1) && [a, b][0] == a && [a, b][1] == b;
    }
  }

  ghost function AllTracks(): (ks: set<Key>)
    ensures forall k: Key :: k in ks <==> Valid(k)
  {
    var ks := set d: nat, t: nat | d < NDRIVES && t < TRACKS :: Key(d, t);
    assert forall k: Key :: Valid(k) ==> k == Key(k.drv, k.trk);
    ks
  }

  ghost function BlankDisk(g: Geometry): (d: Disk)
    ensures DiskOk(g, d) && forall k: Key :: k in d ==> Valid(k)
  {
    map k | k in AllTracks() :: Zeros(g[k.drv])
  }

  /** The cache when a track has been found for the first time. */
  ghost function OneCached(g: Geometry, k: Key): (s: State)
    requires Valid(k)
  {
    Found(g, State(BlankDisk(g), seq(TBCLEN, _ => Free)), k, true, true)
  }

  lemma OneIsCached(g: Geometry, k: Key, other: Key)
    requires Valid(k) && other != k
    ensures var s := OneCached(g, k); Inv(g, s) && OnlyTracks(s) && Cached(s, k) && !Cached(s, other)
  {
    var s0 := State(BlankDisk(g), seq(TBCLEN, _ => Free));
    assert Inv(g, s0);
    FoundKeepsInv(g, s0, k, true, true);
    FoundKeepsKeys(g, s0, k, true, true);
    FoundIsInFront(g, s0, k, true, true);
    NotCached(s0.cache, k);
    var s := OneCached(g, k);
    forall i: nat | i < |s.cache|
      ensures !Holds(s.cache[i], other)
    {
    }
    NotCached(s.cache, other);
  }

  /** All its blocks are on the track on which it begins. */
  predicate OnOneTrack(g: Geometry, r: Request)
    requires r.drv < NDRIVES
  {
    r.count > 0 && r.bno % g[r.drv] + r.count <= g[r.drv]
  }

  /** So requests that each keep to one track, and overlap, are taken in the order in which they came, whatever is
      cached. */
  lemma OneTrackInOrder(g: Geometry, a: Request, b: Request)
    requires a.drv < NDRIVES && b.drv < NDRIVES && OnOneTrack(g, a) && OnOneTrack(g, b) && Overlap(a, b)
    ensures !CanOvertake(g, b, a)
  {
    SameTrack(g[a.drv], a.bno, b.bno, a.count, b.count);
    OvertakesIff(g, a, b);
  }

  lemma SameTrack(n: nat, x: nat, y: nat, i: nat, j: nat)
    requires n in {9, 11, 18} && x % n + i <= n && y % n + j <= n && x < y + j && y < x + i
    ensures x / n == y / n
  {
    if n == 9 {
      assert x / 9 == y / 9;
    } else if n == 11 {
      assert x / 11 == y / 11;
    } else {
      assert x / 18 == y / 18;
    }
  }

  /** Of two that overlap, the later can overtake the earlier if and only if they begin on different tracks of the
      drive: for instance one that reads the last block of track 0 and the first of track 1, and one that writes
      that first block. */
  lemma OverlapCanBeOvertaken(g: Geometry, a: Request, b: Request)
    requires a.drv < NDRIVES && Overlap(a, b) && b.bno < Blocks(g, b.drv)
    ensures CanOvertake(g, b, a) <==> Begins(g, a) != Begins(g, b)
    ensures var c, d := Request(a.drv, g[a.drv] - 1, 2, 0), Request(a.drv, g[a.drv], 1, 1);
            Overlap(c, d) && CanOvertake(g, d, c)
  {
    TrackIsValid(g, b.drv, b.bno);
    OvertakesIff(g, a, b);
    var c, d := Request(a.drv, g[a.drv] - 1, 2, 0), Request(a.drv, g[a.drv], 1, 1);
    assert Begins(g, c) == Key(a.drv, 0) && Begins(g, d) == Key(a.drv, 1);
    OvertakesIff(g, c, d);
  }
}
